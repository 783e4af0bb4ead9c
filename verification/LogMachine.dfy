/** Every interleaving of file-system operations, the group commit of kernel/log.c, crashes
    at any block write and restarts, as one step system; it refines a disk on which a
    whole group of operations becomes durable in a single atomic step. */
module LogMachine {
  import opened Blocks
  import opened RedoLog
  import opened LogDriver

  /** What a thread is doing: outside a transaction, or inside one with the distinct
      blocks it has logged so far; ready when it has passed the tests at the start of
      log_write, which run without the lock, and is about to take the lock. */
  datatype Op = Closed | Open(wrote: set<nat>, ready: bool)

  datatype Phase =
    | Running                  // no commit in progress
    | CommitLog(i: nat)        // write_log, next tail is i
    | CommitInstall(i: nat)    // install_trans, next tail is i
    | CommitDone               // commit has returned, committing not yet reset
    | Recovering(i: nat)       // recover_from_log at boot, next tail is i

  datatype State = State(disk: Disk, lh: seq<nat>, dirty: map<nat, Block>,
                         outstanding: nat, committing: bool, ops: seq<Op>, phase: Phase)

  datatype Step =
    | Begin(t: nat)
    | Test(t: nat)
    | Write(t: nat, b: nat, data: Block)
    | End(t: nat)
    | LogBlock
    | WriteHeader
    | InstallBlock
    | EraseHeader
    | FinishCommit
    | Crash
    | RecoverBlock
    | RecoverErase

  // ---- sums over the threads ---------------------------------------------------------

  function OpenCount(ops: seq<Op>): nat {
    if ops == [] then 0 else OpenCount(ops[..|ops| - 1]) + if ops[|ops| - 1].Open? then 1 else 0
  }

  function Left(op: Op): int {
    if op.Open? then MAXOPBLOCKS - |op.wrote| else 0
  }

  /** The blocks that the open operations may still log under their budgets. */
  function Unspent(ops: seq<Op>): int {
    if ops == [] then 0 else Unspent(ops[..|ops| - 1]) + Left(ops[|ops| - 1])
  }

  ghost predicate InBudget(ops: seq<Op>) {
    forall t :: 0 <= t < |ops| && ops[t].Open? ==> |ops[t].wrote| <= MAXOPBLOCKS
  }

  lemma {:induction false} OpenCountUpdate(ops: seq<Op>, t: nat, op: Op)
    requires t < |ops|
    ensures OpenCount(ops[t := op]) ==
            OpenCount(ops) - (if ops[t].Open? then 1 else 0) + if op.Open? then 1 else 0
  {
    var last := |ops| - 1;
    if t == last {
      assert ops[t := op][..last] == ops[..last];
    } else {
      assert ops[t := op][..last] == ops[..last][t := op];
      OpenCountUpdate(ops[..last], t, op);
    }
  }

  lemma {:induction false} UnspentUpdate(ops: seq<Op>, t: nat, op: Op)
    requires t < |ops|
    ensures Unspent(ops[t := op]) == Unspent(ops) - Left(ops[t]) + Left(op)
  {
    var last := |ops| - 1;
    if t == last {
      assert ops[t := op][..last] == ops[..last];
    } else {
      assert ops[t := op][..last] == ops[..last][t := op];
      UnspentUpdate(ops[..last], t, op);
    }
  }

  lemma {:induction false} UnspentBounds(ops: seq<Op>, t: nat)
    requires InBudget(ops) && t < |ops|
    ensures Left(ops[t]) <= Unspent(ops) <= OpenCount(ops) * MAXOPBLOCKS
    ensures ops[t].Open? ==> OpenCount(ops) >= 1
  {
    var last := |ops| - 1;
    if last > 0 {
      UnspentBounds(ops[..last], if t < last then t else 0);
      if t == last {
        UnspentNonNegative(ops[..last]);
      }
    }
  }

  lemma {:induction false} UnspentNonNegative(ops: seq<Op>)
    requires InBudget(ops)
    ensures 0 <= Unspent(ops) <= OpenCount(ops) * MAXOPBLOCKS
  {
    if ops != [] {
      UnspentNonNegative(ops[..|ops| - 1]);
    }
  }

  // ---- the step system ---------------------------------------------------------------

  ghost predicate Distinct(hs: seq<nat>) {
    forall i, j :: 0 <= i < j < |hs| ==> hs[i] != hs[j]
  }

  /** Power-on with any disk that a run can leave behind; a fresh mkfs image is one. */
  ghost predicate Init(L: Layout, s: State) {
    && ValidDisk(L, s.disk) && s.lh == HeadList(s.disk[L.start]) && Distinct(s.lh)
    && s.dirty == map[] && s.outstanding == 0 && !s.committing && s.phase == Recovering(0)
    && forall t :: 0 <= t < |s.ops| ==> s.ops[t] == Closed
  }

  /** The i-th log block and the home block it stands for exist; it need not be inside the log. */
  ghost predicate OnLine(L: Layout, s: State, i: nat) {
    i < |s.lh| && s.lh[i] < |s.disk| && L.start + i + 1 < |s.disk|
  }

  /** When a step may happen. An operation logs at most MAXOPBLOCKS distinct blocks. Test is
      log_write up to its lock, when it does not panic; Write is the rest, which looks at the
      size no more. */
  ghost predicate Enabled(L: Layout, s: State, step: Step)
    requires ValidDisk(L, s.disk)
  {
    match step
    case Begin(t) =>
      && t < |s.ops| && s.ops[t] == Closed && !s.phase.Recovering?
      && Admits(|s.lh|, s.outstanding, s.committing)
    case Test(t) => t < |s.ops| && s.ops[t].Open? && !s.ops[t].ready && !TooBig(L, |s.lh|) && s.outstanding >= 1
    case Write(t, b, data) =>
      && t < |s.ops| && s.ops[t].Open? && s.ops[t].ready && Home(L, s.disk, b)
      && |s.ops[t].wrote + {b}| <= MAXOPBLOCKS
    case End(t) => t < |s.ops| && s.ops[t].Open? && !s.ops[t].ready && s.outstanding > 0
    case LogBlock => s.phase.CommitLog? && s.phase.i < |s.lh| && OnLine(L, s, s.phase.i)
    case WriteHeader => s.phase.CommitLog? && s.phase.i == |s.lh| && Entries(s.lh)
    case InstallBlock => s.phase.CommitInstall? && s.phase.i < |s.lh| && OnLine(L, s, s.phase.i)
    case EraseHeader => s.phase.CommitInstall? && s.phase.i == |s.lh|
    case FinishCommit => s.phase.CommitDone?
    case Crash => true
    case RecoverBlock => s.phase.Recovering? && s.phase.i < |s.lh| && OnLine(L, s, s.phase.i)
    case RecoverErase => s.phase.Recovering? && s.phase.i == |s.lh|
  }

  /** log_write(b) and the buffer update before it, by thread t. */
  function AfterWrite(s: State, t: nat, b: nat, data: Block): State
    requires t < |s.ops| && s.ops[t].Open?
  {
    s.(lh := Appended(s.lh, b), dirty := s.dirty[b := data], ops := s.ops[t := Open(s.ops[t].wrote + {b}, false)])
  }

  /** end_op by thread t: the last one out starts the commit. */
  function AfterEnd(s: State, t: nat): State
    requires t < |s.ops| && s.outstanding > 0
  {
    var u := s.(outstanding := s.outstanding - 1, ops := s.ops[t := Closed]);
    if u.outstanding == 0
    then u.(committing := true, phase := if s.lh == [] then CommitDone else CommitLog(0))
    else u
  }

  /** A crash drops everything but the disk; the next boot reads the header. */
  function AfterCrash(L: Layout, s: State): State
    requires ValidDisk(L, s.disk)
  {
    State(s.disk, HeadList(s.disk[L.start]), map[], 0, false, seq(|s.ops|, _ => Closed), Recovering(0))
  }

  ghost function Next(L: Layout, s: State, step: Step): State
    requires ValidDisk(L, s.disk) && Enabled(L, s, step)
  {
    match step
    case Begin(t) => s.(outstanding := s.outstanding + 1, ops := s.ops[t := Open({}, false)])
    case Test(t) => s.(ops := s.ops[t := Open(s.ops[t].wrote, true)])
    case Write(t, b, data) => AfterWrite(s, t, b, data)
    case End(t) => AfterEnd(s, t)
    case LogBlock =>
      var i := s.phase.i;
      s.(disk := s.disk[L.start + i + 1 := Cached(s.disk, s.dirty, s.lh[i])], phase := CommitLog(i + 1))
    case WriteHeader =>
      s.(disk := s.disk[L.start := PutHead(s.disk[L.start], s.lh)], phase := CommitInstall(0))
    case InstallBlock =>
      var i := s.phase.i;
      // the buffer is unpinned; cached or recycled, its block now reads the same
      s.(disk := s.disk[s.lh[i] := s.disk[L.start + i + 1]], phase := CommitInstall(i + 1))
    case EraseHeader =>
      s.(disk := s.disk[L.start := PutHead(s.disk[L.start], [])], lh := [], dirty := map[], phase := CommitDone)
    case FinishCommit => s.(committing := false, phase := Running)
    case Crash => AfterCrash(L, s)
    case RecoverBlock =>
      var i := s.phase.i;
      s.(disk := s.disk[s.lh[i] := s.disk[L.start + i + 1]], phase := Recovering(i + 1))
    case RecoverErase =>
      s.(disk := s.disk[L.start := PutHead(s.disk[L.start], [])], lh := [], phase := Running)
  }

  // ---- the invariant -----------------------------------------------------------------

  /** The bookkeeping part: who is in a transaction, what the log holds, what it may hold. */
  ghost predicate Accounts(L: Layout, s: State) {
    && s.outstanding == OpenCount(s.ops)
    && InBudget(s.ops)
    && (forall t :: 0 <= t < |s.ops| && s.ops[t].Open? ==> forall b :: b in s.ops[t].wrote ==> b in s.lh)
    && Distinct(s.lh)
    && (s.committing <==> s.phase.CommitLog? || s.phase.CommitInstall? || s.phase.CommitDone?)
    && (!s.phase.Running? ==> s.outstanding == 0)
    && (s.phase.CommitDone? ==> s.lh == [])
    && (s.phase.Running? && s.outstanding == 0 ==> s.lh == [])
    && (!s.phase.Recovering? ==> |s.lh| + Unspent(s.ops) <= LOGSIZE)
  }

  /** Log block number j. */
  function Slot(L: Layout, d: Disk, j: nat): Block
    requires L.start + 1 + j < |d|
  {
    d[L.start + 1 + j]
  }

  /** The first i log blocks hold what the kernel sees in the blocks they stand for. */
  ghost predicate SlotsLogged(L: Layout, s: State, i: nat)
    requires ValidLayout(L, s.disk) && ValidList(L, s.disk, s.lh) && i <= |s.lh|
  {
    forall j :: 0 <= j < i ==> Slot(L, s.disk, j) == Cached(s.disk, s.dirty, s.lh[j])
  }

  ghost predicate SlotsInstalled(L: Layout, s: State, i: nat)
    requires ValidLayout(L, s.disk) && ValidList(L, s.disk, s.lh) && i <= |s.lh|
  {
    forall j :: 0 <= j < i ==> Slot(L, s.disk, j) == s.disk[s.lh[j]]
  }

  /** The disk part: what header, log blocks and pinned buffers say in each phase. */
  ghost predicate OnDisk(L: Layout, s: State) {
    && ValidDisk(L, s.disk) && ValidList(L, s.disk, s.lh)
    && match s.phase
       case Running => HeadList(s.disk[L.start]) == [] && Pins(s.dirty, s.lh)
       case CommitLog(i) =>
         && HeadList(s.disk[L.start]) == [] && Pins(s.dirty, s.lh)
         && i <= |s.lh| && SlotsLogged(L, s, i)
       case CommitInstall(i) =>
         && HeadList(s.disk[L.start]) == s.lh && i <= |s.lh|
         && Pins(s.dirty, s.lh)
         && SlotsLogged(L, s, |s.lh|) && SlotsInstalled(L, s, i)
       case CommitDone => HeadList(s.disk[L.start]) == [] && s.dirty == map[]
       case Recovering(i) =>
         && HeadList(s.disk[L.start]) == s.lh && i <= |s.lh| && s.dirty == map[]
         && SlotsInstalled(L, s, i)
  }

  ghost predicate Inv(L: Layout, s: State) {
    OnDisk(L, s) && Accounts(L, s)
  }

  lemma InitInv(L: Layout, s: State)
    requires Init(L, s)
    ensures Inv(L, s)
  {
    NoneOpen(s.ops);
  }

  lemma {:induction false} NoneOpen(ops: seq<Op>)
    requires forall t :: 0 <= t < |ops| ==> ops[t] == Closed
    ensures OpenCount(ops) == 0 && Unspent(ops) == 0 && InBudget(ops)
  {
    if ops != [] {
      NoneOpen(ops[..|ops| - 1]);
    }
  }

  lemma {:induction false} CountZero(ops: seq<Op>, t: nat)
    requires OpenCount(ops) == 0 && t < |ops|
    ensures ops[t] == Closed
  {
    if t < |ops| - 1 {
      CountZero(ops[..|ops| - 1], t);
    }
  }

  /** Group commit, first half: an open operation means no commit is running, so end_op
      never reaches its panic. */
  lemma OpenMeansRunning(L: Layout, s: State, t: nat)
    requires Accounts(L, s) && t < |s.ops| && s.ops[t].Open?
    ensures s.phase.Running? && !s.committing && s.outstanding > 0
  {
    UnspentBounds(s.ops, t);
  }

  /** Group commit, second half: while a commit runs (or a recovery), nothing is open. */
  lemma CommitExcludesOps(L: Layout, s: State, t: nat)
    requires Accounts(L, s) && !s.phase.Running? && t < |s.ops|
    ensures s.ops[t] == Closed
  {
    CountZero(s.ops, t);
  }

  lemma BeginAccounts(L: Layout, s: State, t: nat)
    requires Accounts(L, s) && ValidDisk(L, s.disk) && Enabled(L, s, Begin(t))
    ensures Accounts(L, Next(L, s, Begin(t)))
  {
    OpenCountUpdate(s.ops, t, Open({}, false));
    UnspentUpdate(s.ops, t, Open({}, false));
    UnspentNonNegative(s.ops);
  }

  lemma TestAccounts(L: Layout, s: State, t: nat)
    requires Accounts(L, s) && ValidDisk(L, s.disk) && Enabled(L, s, Test(t))
    ensures Accounts(L, Next(L, s, Test(t)))
  {
    OpenCountUpdate(s.ops, t, Open(s.ops[t].wrote, true));
    UnspentUpdate(s.ops, t, Open(s.ops[t].wrote, true));
  }

  lemma WriteAccounts(L: Layout, s: State, t: nat, b: nat, data: Block)
    requires Accounts(L, s) && ValidDisk(L, s.disk) && Enabled(L, s, Write(t, b, data))
    ensures Accounts(L, Next(L, s, Write(t, b, data)))
  {
    var op := Open(s.ops[t].wrote + {b}, false);
    OpenMeansRunning(L, s, t);
    assert b !in s.lh ==> b !in s.ops[t].wrote;
    assert b in s.ops[t].wrote ==> s.ops[t].wrote + {b} == s.ops[t].wrote;
    OpenCountUpdate(s.ops, t, op);
    UnspentUpdate(s.ops, t, op);
  }

  lemma EndAccounts(L: Layout, s: State, t: nat)
    requires Accounts(L, s) && ValidDisk(L, s.disk) && Enabled(L, s, End(t))
    ensures Accounts(L, Next(L, s, End(t)))
  {
    OpenMeansRunning(L, s, t);
    OpenCountUpdate(s.ops, t, Closed);
    UnspentUpdate(s.ops, t, Closed);
    UnspentBounds(s.ops, t);
  }

  lemma CrashAccounts(L: Layout, s: State)
    requires ValidDisk(L, s.disk) && Distinct(HeadList(s.disk[L.start]))
    ensures Accounts(L, Next(L, s, Crash))
  {
    NoneOpen(AfterCrash(L, s).ops);
  }

  /** The bookkeeping does not depend on the size of the log. */
  lemma StepAccounts(L: Layout, s: State, step: Step)
    requires Accounts(L, s) && ValidDisk(L, s.disk) && Enabled(L, s, step)
    requires step == Crash ==> Distinct(HeadList(s.disk[L.start]))
    ensures Accounts(L, Next(L, s, step))
  {
    if !s.phase.Running? {
      NothingOpen(L, s);
    }
    match step
    case Begin(t) => BeginAccounts(L, s, t);
    case Test(t) => TestAccounts(L, s, t);
    case Write(t, b, data) => WriteAccounts(L, s, t, b, data);
    case End(t) => EndAccounts(L, s, t);
    case Crash => CrashAccounts(L, s);
    case RecoverErase => UnspentNonNegative(s.ops);
    case _ =>
  }

  // ---- refinement --------------------------------------------------------------------

  /** The specification: a durable and a current image of the home blocks. */
  datatype Spec = Spec(durable: map<nat, Block>, current: map<nat, Block>)

  function Image(L: Layout, d: Disk): map<nat, Block> {
    map b: nat | b < |d| && Home(L, d, b) :: d[b]
  }

  /** What a recovery from the present disk would restore. */
  ghost function Durable(L: Layout, s: State): map<nat, Block>
    requires ValidDisk(L, s.disk)
  {
    Image(L, Recover(L, s.disk))
  }

  /** What file-system code reads, once it runs again. */
  ghost function Current(L: Layout, s: State): map<nat, Block>
    requires ValidDisk(L, s.disk)
  {
    if s.phase.Recovering? then Durable(L, s) else Image(L, Overlay(s.disk, s.dirty))
  }

  ghost function Abs(L: Layout, s: State): Spec
    requires ValidDisk(L, s.disk)
  {
    Spec(Durable(L, s), Current(L, s))
  }

  /** A transactional disk: writes change the current image, the header write makes the
      whole current image durable at once, a crash falls back to the durable image, and
      no other step is visible. */
  ghost predicate SpecNext(a: Spec, step: Step, a': Spec) {
    match step
    case Write(_, b, data) => a' == a.(current := a.current[b := data])
    case WriteHeader => a' == a.(durable := a.current)
    case Crash => a' == a.(current := a.durable)
    case _ => a' == a
  }

  lemma SameImage(L: Layout, d: Disk, e: Disk)
    requires SameHome(L, d, e)
    ensures Image(L, d) == Image(L, e)
  {
  }

  /** Recovery restores block b to what the header and the log say about it. */
  lemma DurableFrom(L: Layout, d: Disk, hs: seq<nat>, e: Disk)
    requires ValidDisk(L, d) && HeadList(d[L.start]) == hs && |e| == |d|
    requires forall b: nat :: Home(L, d, b) ==> Replayed(L, d, hs, b) == e[b]
    ensures Image(L, Recover(L, d)) == Image(L, e)
  {
    forall b: nat | Home(L, d, b) ensures Recover(L, d)[b] == e[b] {
      RecoverAt(L, d, b);
    }
    SameImage(L, Recover(L, d), e);
  }

  /** An empty header: the disk is its own recovery. */
  lemma DurableEmpty(L: Layout, d: Disk)
    requires ValidDisk(L, d) && HeadList(d[L.start]) == []
    ensures Image(L, Recover(L, d)) == Image(L, d)
  {
    DurableFrom(L, d, [], d);
  }

  /** All home blocks already hold their log block: recovery changes nothing. */
  lemma DurableInstalled(L: Layout, d: Disk, hs: seq<nat>)
    requires ValidDisk(L, d) && HeadList(d[L.start]) == hs
    requires forall j :: 0 <= j < |hs| ==> Slot(L, d, j) == d[hs[j]]
    ensures Image(L, Recover(L, d)) == Image(L, d)
  {
    forall b: nat | Home(L, d, b) ensures Replayed(L, d, hs, b) == d[b] {
      if b in hs {
        var j := LastIndex(hs, b);
        assert Slot(L, d, j) == d[hs[j]];
      }
    }
    DurableFrom(L, d, hs, d);
  }

  /** The log blocks hold the pinned buffers and the header names them. */
  lemma DurableHeader(L: Layout, d: Disk, hs: seq<nat>, dirty: map<nat, Block>)
    requires ValidDisk(L, d) && HeadList(d[L.start]) == hs && Pins(dirty, hs)
    requires forall j :: 0 <= j < |hs| ==> Slot(L, d, j) == Cached(d, dirty, hs[j])
    ensures Image(L, Recover(L, d)) == Image(L, Overlay(d, dirty))
  {
    forall b: nat | Home(L, d, b) ensures Replayed(L, d, hs, b) == Overlay(d, dirty)[b] {
      if b in hs {
        var j := LastIndex(hs, b);
        assert Slot(L, d, j) == Cached(d, dirty, hs[j]);
      }
    }
    DurableFrom(L, d, hs, Overlay(d, dirty));
  }

  lemma InstallValid(L: Layout, d: Disk, hs: seq<nat>, k: nat)
    requires ValidDisk(L, d) && HeadList(d[L.start]) == hs && k < |hs|
    ensures var e := d[hs[k] := Slot(L, d, k)];
            ValidDisk(L, e) && e[L.start] == d[L.start] && ValidList(L, e, hs)
  {
    assert Home(L, d, hs[k]);
  }

  /** Installing one listed block does not change what recovery restores. */
  lemma DurableInstall(L: Layout, d: Disk, hs: seq<nat>, k: nat)
    requires ValidDisk(L, d) && HeadList(d[L.start]) == hs && k < |hs|
    ensures var e := d[hs[k] := Slot(L, d, k)];
            ValidDisk(L, e) && Image(L, Recover(L, e)) == Image(L, Recover(L, d))
  {
    var e := d[hs[k] := Slot(L, d, k)];
    InstallValid(L, d, hs, k);
    forall b: nat | Home(L, e, b)
      ensures Replayed(L, e, hs, b) == Recover(L, d)[b]
    {
      assert Home(L, d, hs[k]);
      RecoverAt(L, d, b);
    }
    DurableFrom(L, e, hs, Recover(L, d));
  }

  /** Log blocks do not matter while the header is empty. */
  lemma LogBlockStep(L: Layout, s: State)
    requires Inv(L, s) && Enabled(L, s, LogBlock)
    ensures var s' := Next(L, s, LogBlock); OnDisk(L, s') && Abs(L, s') == Abs(L, s)
  {
    var s' := Next(L, s, LogBlock);
    LogBlockOnDisk(L, s);
    assert s'.disk[L.start] == s.disk[L.start];
    hide SlotsLogged, SlotsInstalled, HeadList;
    DurableEmpty(L, s.disk);
    DurableEmpty(L, s'.disk);
    LogBlockKeepsHome(L, s.disk, s.dirty, s.phase.i, s'.disk[L.start + s.phase.i + 1]);
    SameImage(L, s.disk, s'.disk);
    SameImage(L, Overlay(s.disk, s.dirty), Overlay(s'.disk, s'.dirty));
  }

  lemma LogBlockOnDisk(L: Layout, s: State)
    requires Inv(L, s) && Enabled(L, s, LogBlock)
    ensures OnDisk(L, Next(L, s, LogBlock))
  {
    var s' := Next(L, s, LogBlock);
    assert s'.disk[L.start] == s.disk[L.start];
    hide HeadList;
  }

  /** A log block is no home block. */
  lemma LogBlockKeepsHome(L: Layout, d: Disk, dirty: map<nat, Block>, i: nat, x: Block)
    requires ValidLayout(L, d) && i + 1 < L.size && L.start + i + 1 < |d|
    ensures SameHome(L, d, d[L.start + i + 1 := x])
    ensures SameHome(L, Overlay(d, dirty), Overlay(d[L.start + i + 1 := x], dirty))
  {
  }

  ghost predicate AllLogged(L: Layout, d: Disk, hs: seq<nat>, dirty: map<nat, Block>)
    requires ValidLayout(L, d) && ValidList(L, d, hs)
  {
    forall j :: 0 <= j < |hs| ==> Slot(L, d, j) == Cached(d, dirty, hs[j])
  }

  lemma HeaderKeepsSlots(L: Layout, d: Disk, hs: seq<nat>, dirty: map<nat, Block>, head: Block)
    requires ValidLayout(L, d) && ValidList(L, d, hs) && AllLogged(L, d, hs, dirty)
    ensures AllLogged(L, d[L.start := head], hs, dirty)
    ensures SameHome(L, Overlay(d, dirty), Overlay(d[L.start := head], dirty))
  {
    var e := d[L.start := head];
    forall j | 0 <= j < |hs| ensures Slot(L, e, j) == Cached(e, dirty, hs[j]) {
      assert Slot(L, d, j) == Cached(d, dirty, hs[j]);
      assert Home(L, d, hs[j]);
    }
  }

  lemma WriteHeaderStep(L: Layout, s: State)
    requires Inv(L, s) && Enabled(L, s, WriteHeader)
    ensures var s' := Next(L, s, WriteHeader);
            OnDisk(L, s') && Abs(L, s') == Abs(L, s).(durable := Current(L, s))
  {
    var s' := Next(L, s, WriteHeader);
    HeadRoundTrip(s.disk[L.start], s.lh);
    HeaderKeepsSlots(L, s.disk, s.lh, s.dirty, s'.disk[L.start]);
    DurableHeader(L, s'.disk, s.lh, s.dirty);
    SameImage(L, Overlay(s.disk, s.dirty), Overlay(s'.disk, s'.dirty));
  }

  /** A pinned block reads the same before and after it is installed. */
  lemma InstallUnseen(L: Layout, d: Disk, hs: seq<nat>, dirty: map<nat, Block>, k: nat, b: nat)
    requires ValidLayout(L, d) && ValidList(L, d, hs) && Pins(dirty, hs) && k < |hs| && b < |d|
    ensures Cached(d[hs[k] := Slot(L, d, k)], dirty, b) == Cached(d, dirty, b)
  {
    assert hs[k] in dirty;
  }

  lemma InstallSlots(L: Layout, d: Disk, hs: seq<nat>, dirty: map<nat, Block>, k: nat, j: nat)
    requires ValidLayout(L, d) && ValidList(L, d, hs) && Pins(dirty, hs) && Distinct(hs)
    requires k < |hs| && j < |hs|
    requires Slot(L, d, j) == Cached(d, dirty, hs[j]) && (j < k ==> Slot(L, d, j) == d[hs[j]])
    ensures var e := d[hs[k] := Slot(L, d, k)];
            Slot(L, e, j) == Cached(e, dirty, hs[j]) && (j <= k ==> Slot(L, e, j) == e[hs[j]])
  {
    InstallUnseen(L, d, hs, dirty, k, hs[j]);
    assert Home(L, d, hs[k]);
  }

  lemma InstallBlockOnDisk(L: Layout, s: State)
    requires OnDisk(L, s) && Distinct(s.lh) && Enabled(L, s, InstallBlock)
    ensures OnDisk(L, Next(L, s, InstallBlock))
  {
    var s', i := Next(L, s, InstallBlock), s.phase.i;
    InstallValid(L, s.disk, s.lh, i);
    forall j | 0 <= j < |s.lh|
      ensures Slot(L, s'.disk, j) == Cached(s'.disk, s.dirty, s.lh[j])
      ensures j <= i ==> Slot(L, s'.disk, j) == s'.disk[s.lh[j]]
    {
      InstallSlots(L, s.disk, s.lh, s.dirty, i, j);
    }
  }

  lemma InstallCurrent(L: Layout, d: Disk, hs: seq<nat>, dirty: map<nat, Block>, k: nat)
    requires ValidLayout(L, d) && ValidList(L, d, hs) && Pins(dirty, hs) && k < |hs|
    ensures Image(L, Overlay(d[hs[k] := Slot(L, d, k)], dirty)) == Image(L, Overlay(d, dirty))
  {
    var e := d[hs[k] := Slot(L, d, k)];
    forall b: nat | Home(L, d, b) ensures Overlay(e, dirty)[b] == Overlay(d, dirty)[b] {
      InstallUnseen(L, d, hs, dirty, k, b);
    }
    SameImage(L, Overlay(e, dirty), Overlay(d, dirty));
  }

  lemma InstallBlockStep(L: Layout, s: State)
    requires Inv(L, s) && Enabled(L, s, InstallBlock)
    ensures var s' := Next(L, s, InstallBlock); OnDisk(L, s') && Abs(L, s') == Abs(L, s)
  {
    InstallBlockOnDisk(L, s);
    DurableInstall(L, s.disk, s.lh, s.phase.i);
    InstallCurrent(L, s.disk, s.lh, s.dirty, s.phase.i);
  }

  lemma EraseHeaderStep(L: Layout, s: State)
    requires Inv(L, s) && Enabled(L, s, EraseHeader)
    ensures var s' := Next(L, s, EraseHeader); OnDisk(L, s') && Abs(L, s') == Abs(L, s)
  {
    var s' := Next(L, s, EraseHeader);
    HeadRoundTrip(s.disk[L.start], []);
    DurableInstalled(L, s.disk, s.lh);
    DurableHeader(L, s.disk, s.lh, s.dirty);
    DurableEmpty(L, s'.disk);
    SameImage(L, s.disk, s'.disk);
    SameImage(L, s'.disk, Overlay(s'.disk, s'.dirty));
  }

  lemma RecoverBlockStep(L: Layout, s: State)
    requires Inv(L, s) && Enabled(L, s, RecoverBlock)
    ensures var s' := Next(L, s, RecoverBlock); OnDisk(L, s') && Abs(L, s') == Abs(L, s)
  {
    var s' := Next(L, s, RecoverBlock);
    InstallValid(L, s.disk, s.lh, s.phase.i);
    DurableInstall(L, s.disk, s.lh, s.phase.i);
    forall j | 0 <= j <= s.phase.i ensures Slot(L, s'.disk, j) == s'.disk[s.lh[j]] {
      assert Home(L, s.disk, s.lh[s.phase.i]);
    }
  }

  lemma RecoverEraseStep(L: Layout, s: State)
    requires Inv(L, s) && Enabled(L, s, RecoverErase)
    ensures var s' := Next(L, s, RecoverErase); OnDisk(L, s') && Abs(L, s') == Abs(L, s)
  {
    var s' := Next(L, s, RecoverErase);
    HeadRoundTrip(s.disk[L.start], []);
    DurableInstalled(L, s.disk, s.lh);
    DurableEmpty(L, s'.disk);
    SameImage(L, s.disk, s'.disk);
    SameImage(L, s.disk, Overlay(s'.disk, s'.dirty));
  }

  lemma WriteImage(L: Layout, d: Disk, dirty: map<nat, Block>, b: nat, data: Block)
    requires Home(L, d, b)
    ensures Image(L, Overlay(d, dirty[b := data])) == Image(L, Overlay(d, dirty))[b := data]
  {
  }

  lemma WriteStep(L: Layout, s: State, t: nat, b: nat, data: Block)
    requires Inv(L, s) && Enabled(L, s, Write(t, b, data)) && L.size > LOGSIZE
    ensures var s' := Next(L, s, Write(t, b, data));
            OnDisk(L, s') && Abs(L, s') == Abs(L, s).(current := Current(L, s)[b := data])
  {
    OpenMeansRunning(L, s, t);
    WriteAccounts(L, s, t, b, data);
    UnspentNonNegative(Next(L, s, Write(t, b, data)).ops);
    WriteImage(L, s.disk, s.dirty, b, data);
  }

  lemma CrashStep(L: Layout, s: State)
    requires Inv(L, s)
    ensures var s' := Next(L, s, Crash);
            OnDisk(L, s') && Abs(L, s') == Abs(L, s).(current := Durable(L, s))
  {
  }

  /** Refinement of every step, with more than LOGSIZE log blocks: the invariant is kept, and
      the step is invisible to the transactional disk or is exactly its counterpart there. */
  lemma StepRefines(L: Layout, s: State, step: Step)
    requires Inv(L, s) && Enabled(L, s, step) && L.size > LOGSIZE
    ensures Inv(L, Next(L, s, step))
    ensures SpecNext(Abs(L, s), step, Abs(L, Next(L, s, step)))
  {
    StepAccounts(L, s, step);
    match step
    case Begin(_) =>
    case Test(_) =>
    case Write(t, b, data) => WriteStep(L, s, t, b, data);
    case End(t) => OpenMeansRunning(L, s, t);
    case LogBlock => LogBlockStep(L, s);
    case WriteHeader => WriteHeaderStep(L, s);
    case InstallBlock => InstallBlockStep(L, s);
    case EraseHeader => EraseHeaderStep(L, s);
    case FinishCommit =>
    case Crash => CrashStep(L, s);
    case RecoverBlock => RecoverBlockStep(L, s);
    case RecoverErase => RecoverEraseStep(L, s);
  }

  // ---- whole runs --------------------------------------------------------------------

  ghost predicate Run(L: Layout, tr: seq<State>, steps: seq<Step>) {
    && |tr| == |steps| + 1 && Init(L, tr[0])
    && forall i :: 0 <= i < |steps| ==> Follows(L, tr[i], steps[i], tr[i + 1])
  }

  ghost predicate Follows(L: Layout, s: State, step: Step, s': State) {
    ValidDisk(L, s.disk) && Enabled(L, s, step) && s' == Next(L, s, step)
  }

  lemma {:induction false} RunInv(L: Layout, tr: seq<State>, steps: seq<Step>, i: nat)
    requires Run(L, tr, steps) && i < |tr| && L.size > LOGSIZE
    ensures Inv(L, tr[i])
  {
    if i == 0 {
      InitInv(L, tr[0]);
    } else {
      RunInv(L, tr, steps, i - 1);
      assert Follows(L, tr[i - 1], steps[i - 1], tr[i]);
      StepRefines(L, tr[i - 1], steps[i - 1]);
    }
  }

  /** What the bookkeeping needs to know about the disk, whatever the size of the log. */
  ghost predicate Booked(L: Layout, s: State) {
    && Accounts(L, s) && ValidLayout(L, s.disk)
    && Word(s.disk[L.start], 0) <= LOGSIZE && Distinct(HeadList(s.disk[L.start]))
    && forall j :: 0 <= j < |s.lh| ==> Home(L, s.disk, s.lh[j])
  }

  lemma StepBooked(L: Layout, s: State, step: Step)
    requires Booked(L, s) && ValidDisk(L, s.disk) && Enabled(L, s, step)
    ensures Booked(L, Next(L, s, step))
  {
    StepAccounts(L, s, step);
    match step
    case WriteHeader => HeadRoundTrip(s.disk[L.start], s.lh);
    case EraseHeader => HeadRoundTrip(s.disk[L.start], []);
    case RecoverErase => HeadRoundTrip(s.disk[L.start], []);
    case _ =>
  }

  lemma {:induction false} RunBooked(L: Layout, tr: seq<State>, steps: seq<Step>, i: nat)
    requires Run(L, tr, steps) && i < |tr|
    ensures Booked(L, tr[i])
  {
    if i == 0 {
      InitInv(L, tr[0]);
    } else {
      RunBooked(L, tr, steps, i - 1);
      assert Follows(L, tr[i - 1], steps[i - 1], tr[i]);
      StepBooked(L, tr[i - 1], steps[i - 1]);
    }
  }

  /** In every reachable state, with a log of any size: an open operation excludes a running
      commit, so the panic of end_op is unreachable, and the logged block numbers are
      distinct. When nothing is open and no commit runs, nothing is logged: the last end_op
      has always committed. A run of a log with at most LOGSIZE blocks ends when it writes a header that
      lists as many blocks as the log has, as the disk is no longer valid then. */
  lemma GroupCommit(L: Layout, tr: seq<State>, steps: seq<Step>, i: nat)
    requires Run(L, tr, steps) && i < |tr|
    ensures Distinct(tr[i].lh)
    ensures forall t :: 0 <= t < |tr[i].ops| && tr[i].ops[t].Open? ==> !tr[i].committing && tr[i].phase.Running?
    ensures !tr[i].phase.Recovering? ==> |tr[i].lh| + Unspent(tr[i].ops) <= LOGSIZE
    ensures tr[i].phase.Running? && Quiescent(tr[i]) ==> tr[i].lh == []
  {
    RunBooked(L, tr, steps, i);
    if Quiescent(tr[i]) { NoneOpen(tr[i].ops); }
    forall t | 0 <= t < |tr[i].ops| && tr[i].ops[t].Open?
      ensures !tr[i].committing && tr[i].phase.Running?
    {
      OpenMeansRunning(L, tr[i], t);
    }
  }

  /** Where the durable image of the i-th state comes from: the latest header write, or
      the image found at power-on. */
  ghost function CommitPoint(steps: seq<Step>, i: nat): (j: nat)
    requires i <= |steps|
    ensures j <= i
  {
    if i == 0 then 0
    else if steps[i - 1] == WriteHeader then i - 1
    else CommitPoint(steps, i - 1)
  }

  lemma StepDurable(L: Layout, tr: seq<State>, steps: seq<Step>, i: nat)
    requires Run(L, tr, steps) && i < |steps| && L.size > LOGSIZE
    ensures ValidDisk(L, tr[i].disk) && ValidDisk(L, tr[i + 1].disk)
    ensures Durable(L, tr[i + 1]) == if steps[i] == WriteHeader then Current(L, tr[i]) else Durable(L, tr[i])
  {
    RunInv(L, tr, steps, i);
    assert Follows(L, tr[i], steps[i], tr[i + 1]);
    StepRefines(L, tr[i], steps[i]);
  }

  lemma HeaderWriteIsQuiescent(L: Layout, tr: seq<State>, steps: seq<Step>, i: nat)
    requires Run(L, tr, steps) && i < |steps| && steps[i] == WriteHeader
    ensures Quiescent(tr[i])
  {
    RunBooked(L, tr, steps, i);
    assert Follows(L, tr[i], steps[i], tr[i + 1]);
    NothingOpen(L, tr[i]);
  }

  ghost predicate Quiescent(s: State) {
    forall t :: 0 <= t < |s.ops| ==> s.ops[t] == Closed
  }

  lemma PowerOn(L: Layout, s: State)
    requires Init(L, s)
    ensures ValidDisk(L, s.disk) && Durable(L, s) == Current(L, s) && Quiescent(s)
  {
    InitInv(L, s);
    CommitIsDurable(L, s);
    NothingOpen(L, s);
  }

  /** Atomicity of every run with more than LOGSIZE log blocks, with crashes anywhere: what a
      recovery would restore is the file system exactly as it stood at one earlier moment when
      no operation was open, namely at the latest header write (or at power-on). */
  lemma {:induction false} DurableIsQuiescent(L: Layout, tr: seq<State>, steps: seq<Step>, i: nat)
    requires Run(L, tr, steps) && i < |tr| && L.size > LOGSIZE
    ensures var j := CommitPoint(steps, i);
            && ValidDisk(L, tr[i].disk) && ValidDisk(L, tr[j].disk)
            && Durable(L, tr[i]) == Current(L, tr[j]) && Quiescent(tr[j])
  {
    hide ValidDisk, Durable, Current, Quiescent, Follows, Init;
    if i == 0 {
      PowerOn(L, tr[0]);
    } else {
      StepDurable(L, tr, steps, i - 1);
      if steps[i - 1] == WriteHeader {
        HeaderWriteIsQuiescent(L, tr, steps, i - 1);
      } else {
        DurableIsQuiescent(L, tr, steps, i - 1);
      }
    }
  }

  lemma NothingOpen(L: Layout, s: State)
    requires Accounts(L, s) && !s.phase.Running?
    ensures Quiescent(s)
  {
    forall t | 0 <= t < |s.ops| ensures s.ops[t] == Closed {
      CommitExcludesOps(L, s, t);
    }
  }

  /** Durability: when end_op's commit has returned, everything written so far is durable;
      and when recovery has finished, the kernel runs on the durable image. */
  lemma CommitIsDurable(L: Layout, s: State)
    requires Inv(L, s) && (s.phase.CommitDone? || s.phase.Recovering? || (s.phase.Running? && s.lh == []))
    ensures Durable(L, s) == Current(L, s)
  {
    if !s.phase.Recovering? {
      DurableEmpty(L, s.disk);
      SameImage(L, s.disk, Overlay(s.disk, s.dirty));
    }
  }

  /** In every run with more than LOGSIZE log blocks: whenever no operation is open and no
      commit runs, everything ever written is durable. */
  lemma QuietIsDurable(L: Layout, tr: seq<State>, steps: seq<Step>, i: nat)
    requires Run(L, tr, steps) && i < |tr| && L.size > LOGSIZE && tr[i].phase.Running? && Quiescent(tr[i])
    ensures ValidDisk(L, tr[i].disk) && Durable(L, tr[i]) == Current(L, tr[i])
  {
    RunInv(L, tr, steps, i);
    GroupCommit(L, tr, steps, i);
    CommitIsDurable(L, tr[i]);
  }

  // ---- end_op and its commit, undisturbed ---------------------------------------------

  /** Thread t, the last one, has ended, and its commit has made k block writes. */
  function Committing(L: Layout, s: State, t: nat, k: nat): State
    requires ValidLayout(L, s.disk) && ValidList(L, s.disk, s.lh) && t < |s.ops| && k <= 2 * |s.lh| + 2
  {
    var n := |s.lh|;
    var disk, ops := Committed(L, s.disk, s.lh, s.dirty, k), s.ops[t := Closed];
    if k <= n then State(disk, s.lh, s.dirty, 0, true, ops, CommitLog(k))
    else if k <= 2 * n + 1 then State(disk, s.lh, s.dirty, 0, true, ops, CommitInstall(k - n - 1))
    else State(disk, [], map[], 0, true, ops, CommitDone)
  }

  /** The block write of a commit that follows k others. */
  function CommitWrite(n: nat, k: nat): Step {
    if k < n then LogBlock else if k == n then WriteHeader else if k <= 2 * n then InstallBlock else EraseHeader
  }

  lemma CommittingValid(L: Layout, s: State, t: nat, k: nat)
    requires Inv(L, s) && s.phase.Running? && t < |s.ops| && k <= 2 * |s.lh| + 2
    ensures ValidDisk(L, Committing(L, s, t, k).disk)
  {
    CommitPrefixRecovers(L, s.disk, s.lh, s.dirty, k);
  }

  lemma CommittingLogs(L: Layout, s: State, t: nat, k: nat)
    requires Inv(L, s) && s.phase.Running? && t < |s.ops| && k < |s.lh|
    ensures Follows(L, Committing(L, s, t, k), LogBlock, Committing(L, s, t, k + 1))
  {
    CommittingValid(L, s, t, k);
    hide ValidDisk, HeadList, Accounts, Pins, Installed;
    assert Home(L, s.disk, s.lh[k]);
  }

  lemma CommittingPoint(L: Layout, s: State, t: nat)
    requires Inv(L, s) && s.phase.Running? && t < |s.ops|
    ensures Follows(L, Committing(L, s, t, |s.lh|), WriteHeader, Committing(L, s, t, |s.lh| + 1))
  {
    CommittingValid(L, s, t, |s.lh|);
    LoggedAt(L, s.disk, s.lh, s.dirty, |s.lh|, L.start);
    hide ValidDisk, HeadList, PutHead, Accounts, Pins, Logged;
  }

  lemma InstalledNext(L: Layout, d: Disk, hs: seq<nat>, k: nat)
    requires ValidLayout(L, d) && ValidList(L, d, hs) && k < |hs|
    ensures L.start + k + 1 < |d| && hs[k] < |d|
    ensures Installed(L, d, hs, k + 1) == Installed(L, d, hs, k)[hs[k] := Installed(L, d, hs, k)[L.start + k + 1]]
  {
    assert Home(L, d, hs[k]);
  }

  lemma CommittingTail(L: Layout, s: State, t: nat, i: nat)
    requires Inv(L, s) && s.phase.Running? && t < |s.ops| && i <= |s.lh|
    ensures ValidLayout(L, s.disk) && ValidList(L, s.disk, s.lh)
    ensures var c := HeaderWritten(L, s.disk, s.lh, s.dirty);
            && ValidLayout(L, c) && ValidList(L, c, s.lh)
            && Committing(L, s, t, |s.lh| + 1 + i) ==
               State(Installed(L, c, s.lh, i), s.lh, s.dirty, 0, true, s.ops[t := Closed], CommitInstall(i))
  {
    hide HeadList, Accounts, HeaderWritten, Installed;
  }

  lemma CommittingInstalls(L: Layout, s: State, t: nat, i: nat)
    requires Inv(L, s) && s.phase.Running? && t < |s.ops| && i < |s.lh|
    ensures Follows(L, Committing(L, s, t, |s.lh| + 1 + i), InstallBlock, Committing(L, s, t, |s.lh| + 2 + i))
  {
    hide ValidDisk, Accounts, HeaderWritten, OnDisk, Committing, Committed, Installed;
    CommittingValid(L, s, t, |s.lh| + 1 + i);
    CommittingTail(L, s, t, i);
    CommittingTail(L, s, t, i + 1);
    InstalledNext(L, HeaderWritten(L, s.disk, s.lh, s.dirty), s.lh, i);
  }

  lemma CommittingErases(L: Layout, s: State, t: nat)
    requires Inv(L, s) && s.phase.Running? && t < |s.ops|
    ensures Follows(L, Committing(L, s, t, 2 * |s.lh| + 1), EraseHeader, Committing(L, s, t, 2 * |s.lh| + 2))
  {
    CommittingValid(L, s, t, 2 * |s.lh| + 1);
    InstallKeepsLog(L, HeaderWritten(L, s.disk, s.lh, s.dirty), s.lh, |s.lh|, L.start);
    hide ValidDisk, HeadList, PutHead, Accounts, Pins, Logged, HeaderWritten, Installed;
  }

  lemma CommittingStep(L: Layout, s: State, t: nat, k: nat)
    requires Inv(L, s) && s.phase.Running? && t < |s.ops| && k < 2 * |s.lh| + 2
    ensures Follows(L, Committing(L, s, t, k), CommitWrite(|s.lh|, k), Committing(L, s, t, k + 1))
  {
    hide Follows, Committing;
    var n := |s.lh|;
    if k < n {
      CommittingLogs(L, s, t, k);
    } else if k == n {
      CommittingPoint(L, s, t);
    } else if k <= 2 * n {
      CommittingInstalls(L, s, t, k - n - 1);
    } else {
      CommittingErases(L, s, t);
    }
  }

  /** The End step agrees with LogDriver.Log.EndOp. It starts a commit if and only if it ends
      the last open operation, and otherwise only closes its own. */
  lemma EndStarts(L: Layout, s: State, t: nat)
    requires Inv(L, s) && Enabled(L, s, End(t))
    ensures var u := Next(L, s, End(t));
            && u.outstanding == s.outstanding - 1
            && (u.committing <==> u.outstanding == 0)
            && (!u.committing ==> u == s.(outstanding := s.outstanding - 1, ops := s.ops[t := Closed]))
  {
    OpenMeansRunning(L, s, t);
  }

  lemma EndBegins(L: Layout, s: State, t: nat)
    requires Inv(L, s) && Enabled(L, s, End(t)) && s.outstanding == 1 && s.lh != []
    ensures s.phase.Running? && t < |s.ops| && ValidLayout(L, s.disk) && ValidList(L, s.disk, s.lh)
    ensures Follows(L, s, End(t), Committing(L, s, t, 0))
  {
    OpenMeansRunning(L, s, t);
    hide ValidDisk, Accounts, Pins, HeadList;
  }

  lemma EndFinishes(L: Layout, s: State, t: nat)
    requires Inv(L, s) && s.phase.Running? && t < |s.ops|
    ensures Follows(L, Committing(L, s, t, 2 * |s.lh| + 2), FinishCommit,
                    State(Committed(L, s.disk, s.lh, s.dirty, 2 * |s.lh| + 2), [], map[], 0, false, s.ops[t := Closed],
                          Running))
  {
    CommittingValid(L, s, t, 2 * |s.lh| + 2);
    hide ValidDisk, Accounts, Pins, HeadList, Committed;
  }

  lemma CommittingDisk(L: Layout, s: State, t: nat, k: nat)
    requires ValidLayout(L, s.disk) && ValidList(L, s.disk, s.lh) && t < |s.ops| && k < 2 * |s.lh| + 2
    ensures |CommitTrace(L, s.disk, s.lh, s.dirty)| == 2 * |s.lh| + 2
    ensures Committing(L, s, t, k + 1).disk == CommitTrace(L, s.disk, s.lh, s.dirty)[k]
  {
    hide Committed;
  }

  /** The last end_op with blocks logged, step by step: the commit makes its block writes in
      the order of LogDriver.Log.Commit, the disks between them are those of its trace, and
      what is left is what LogDriver.Log.EndOp leaves. */
  lemma EndCommits(L: Layout, s: State, t: nat)
    requires Inv(L, s) && Enabled(L, s, End(t)) && s.outstanding == 1 && s.lh != []
    ensures Follows(L, s, End(t), Committing(L, s, t, 0))
    ensures forall k :: 0 <= k < 2 * |s.lh| + 2 ==>
              Follows(L, Committing(L, s, t, k), CommitWrite(|s.lh|, k), Committing(L, s, t, k + 1))
    ensures forall k :: 0 <= k < 2 * |s.lh| + 2 ==>
              Committing(L, s, t, k + 1).disk == CommitTrace(L, s.disk, s.lh, s.dirty)[k]
    ensures Follows(L, Committing(L, s, t, 2 * |s.lh| + 2), FinishCommit,
                    State(Committed(L, s.disk, s.lh, s.dirty, 2 * |s.lh| + 2), [], map[], 0, false, s.ops[t := Closed],
                          Running))
  {
    hide Follows, Committing, Committed, CommitWrite, Accounts, OnDisk, Enabled;
    EndBegins(L, s, t);
    EndFinishes(L, s, t);
    forall k | 0 <= k < 2 * |s.lh| + 2
      ensures Follows(L, Committing(L, s, t, k), CommitWrite(|s.lh|, k), Committing(L, s, t, k + 1))
      ensures Committing(L, s, t, k + 1).disk == CommitTrace(L, s.disk, s.lh, s.dirty)[k]
    {
      CommittingStep(L, s, t, k);
      CommittingDisk(L, s, t, k);
    }
  }

  /** The last end_op with nothing logged writes nothing. */
  lemma EndQuietly(L: Layout, s: State, t: nat)
    requires Inv(L, s) && Enabled(L, s, End(t)) && s.outstanding == 1 && s.lh == []
    ensures Follows(L, Next(L, s, End(t)), FinishCommit, s.(outstanding := 0, ops := s.ops[t := Closed]))
  {
    OpenMeansRunning(L, s, t);
  }

  // ---- the size panic of log_write ---------------------------------------------------

  /** An operation with budget left finds fewer than LOGSIZE blocks logged, so with more
      than LOGSIZE log blocks on disk its next block is never "too big a transaction". */
  lemma BudgetedWriteFits(L: Layout, s: State, t: nat)
    requires Accounts(L, s) && t < |s.ops| && s.ops[t].Open? && |s.ops[t].wrote| < MAXOPBLOCKS
    ensures |s.lh| < LOGSIZE
    ensures L.size > LOGSIZE ==> !TooBig(L, |s.lh|)
  {
    OpenMeansRunning(L, s, t);
    UnspentBounds(s.ops, t);
  }

  /** With more than LOGSIZE log blocks, log_write panics exactly when LOGSIZE blocks are
      already logged; every open operation has then spent its whole budget. */
  lemma PanicOnlyWhenSpent(L: Layout, s: State, t: nat)
    requires Accounts(L, s) && L.size > LOGSIZE && t < |s.ops| && s.ops[t].Open?
    ensures TooBig(L, |s.lh|) <==> |s.lh| == LOGSIZE
    ensures TooBig(L, |s.lh|) ==> |s.ops[t].wrote| == MAXOPBLOCKS
  {
    OpenMeansRunning(L, s, t);
    UnspentBounds(s.ops, t);
  }

  ghost predicate Reachable(L: Layout, s: State) {
    exists tr: seq<State>, steps: seq<Step> :: Run(L, tr, steps) && tr[|tr| - 1] == s
  }

  lemma ReachableStep(L: Layout, s: State, step: Step)
    requires Reachable(L, s) && ValidDisk(L, s.disk) && Enabled(L, s, step)
    ensures Reachable(L, Next(L, s, step))
  {
    var tr, steps :| Run(L, tr, steps) && tr[|tr| - 1] == s;
    var tr', steps' := tr + [Next(L, s, step)], steps + [step];
    forall i | 0 <= i < |steps'| ensures Follows(L, tr'[i], steps'[i], tr'[i + 1]) {
      if i < |steps| {
        assert Follows(L, tr[i], steps[i], tr[i + 1]);
      }
    }
    assert Run(L, tr', steps') && tr'[|tr'| - 1] == Next(L, s, step);
  }

  /** Thread r's part of the k blocks from b0 up, when three threads take turns. */
  function Share(b0: nat, k: nat, r: nat): set<nat> {
    if k == 0 then {} else Share(b0, k - 1, r) + (if (k - 1) % 3 == r then {b0 + k - 1} else {})
  }

  lemma {:induction false} ShareBelow(b0: nat, k: nat, r: nat)
    ensures forall b :: b in Share(b0, k, r) ==> b0 <= b < b0 + k
  {
    if k > 0 {
      ShareBelow(b0, k - 1, r);
    }
  }

  lemma {:induction false} ShareSize(b0: nat, k: nat, r: nat)
    requires r < 3
    ensures |Share(b0, k, r)| == (k + 2 - r) / 3
  {
    hide Share;
    if k > 0 {
      ShareSize(b0, k - 1, r);
      ShareGrows(b0, k, r);
      Turns(k, r);
    } else {
      NoShare(b0, r);
    }
  }

  lemma NoShare(b0: nat, r: nat)
    ensures |Share(b0, 0, r)| == 0
  {
  }

  lemma ShareGrows(b0: nat, k: nat, r: nat)
    requires 0 < k
    ensures |Share(b0, k, r)| == |Share(b0, k - 1, r)| + (if (k - 1) % 3 == r then 1 else 0)
  {
    ShareBelow(b0, k - 1, r);
    if (k - 1) % 3 == r {
      assert Share(b0, k, r) == Share(b0, k - 1, r) + {b0 + k - 1};
    } else {
      assert Share(b0, k, r) == Share(b0, k - 1, r);
    }
  }

  lemma Turns(k: nat, r: nat)
    requires 0 < k && r < 3
    ensures (k + 2 - r) / 3 == (k + 1 - r) / 3 + (if (k - 1) % 3 == r then 1 else 0)
  {
  }

  lemma {:induction false} FirstShare(b0: nat, k: nat)
    requires 0 < k
    ensures b0 in Share(b0, k, 0)
  {
    if k > 1 {
      FirstShare(b0, k - 1);
    }
  }

  function Numbers(b0: nat, k: nat): (hs: seq<nat>)
    ensures |hs| == k && forall j :: 0 <= j < k ==> hs[j] == b0 + j
  {
    seq(k, j requires 0 <= j < k => b0 + j)
  }

  function AllSame(b0: nat, k: nat, data: Block): map<nat, Block> {
    if k == 0 then map[] else AllSame(b0, k - 1, data)[b0 + k - 1 := data]
  }

  /** Three open operations that have logged k distinct blocks from b0 up in turns. */
  function Filled(d: Disk, b0: nat, data: Block, k: nat): State {
    State(d, Numbers(b0, k), AllSame(b0, k, data), 3, false, FilledOps(b0, k), Running)
  }

  function FilledOps(b0: nat, k: nat): seq<Op> {
    [Open(Share(b0, k, 0), false), Open(Share(b0, k, 1), false), Open(Share(b0, k, 2), false)]
  }

  /** Thread t with its test passed. */
  function Ready(s: State, t: nat): State
    requires t < |s.ops| && s.ops[t].Open?
  {
    s.(ops := s.ops[t := Open(s.ops[t].wrote, true)])
  }

  lemma OpsGrow(b0: nat, k: nat)
    requires k < LOGSIZE
    ensures var ops, t := FilledOps(b0, k), k % 3;
            && |ops[t].wrote| < MAXOPBLOCKS && |ops[t].wrote + {b0 + k}| <= MAXOPBLOCKS
            && ops[t := Open(ops[t].wrote + {b0 + k}, false)] == FilledOps(b0, k + 1)
  {
    hide Share, FilledOps;
    BudgetLeft(b0, k);
    var t, ops, ops' := k % 3, FilledOps(b0, k), FilledOps(b0, k + 1);
    FilledSizes(b0, k);
    FilledSizes(b0, k + 1);
    forall r | 0 <= r < 3 ensures ops[t := Open(ops[t].wrote + {b0 + k}, false)][r] == ops'[r] {
      NextTurn(b0, k, r);
      NextTurn(b0, k + 1, r);
      NextTurn(b0, k, t);
    }
    NextTurn(b0, k, t);
  }

  lemma BudgetLeft(b0: nat, k: nat)
    requires k < LOGSIZE
    ensures |Share(b0, k, k % 3)| < MAXOPBLOCKS && |Share(b0, k, k % 3) + {b0 + k}| <= MAXOPBLOCKS
  {
    ShareSize(b0, k, k % 3);
  }

  lemma NextTurn(b0: nat, k: nat, r: nat)
    requires r < 3
    ensures FilledOps(b0, k)[r] == Open(Share(b0, k, r), false)
    ensures Share(b0, k + 1, r) == Share(b0, k, r) + (if k % 3 == r then {b0 + k} else {})
  {
  }

  /** The append, by a thread that is ready, from a state that is otherwise as Filled says. */
  lemma FilledGrows(L: Layout, d: Disk, b0: nat, data: Block, k: nat)
    requires ValidDisk(L, d) && k < LOGSIZE && b0 >= L.start + L.size && b0 + LOGSIZE <= |d|
    ensures var s, step := Ready(Filled(d, b0, data, k), k % 3), Write(k % 3, b0 + k, data);
            Enabled(L, s, step) && Next(L, s, step) == Filled(d, b0, data, k + 1)
  {
    hide Share, FilledOps, AllSame, Numbers, ValidDisk;
    FilledLists(d, b0, data, k);
    OpsGrow(b0, k);
    FilledSizes(b0, k);
    var s, ops, t := Ready(Filled(d, b0, data, k), k % 3), FilledOps(b0, k), k % 3;
    assert Home(L, d, b0 + k);
    assert s.ops == ops[t := Open(ops[t].wrote, true)];
    assert s.ops[t := Open(s.ops[t].wrote + {b0 + k}, false)] == ops[t := Open(ops[t].wrote + {b0 + k}, false)];
  }

  lemma FilledLists(d: Disk, b0: nat, data: Block, k: nat)
    ensures var s, s' := Filled(d, b0, data, k), Filled(d, b0, data, k + 1);
            Appended(s.lh, b0 + k) == s'.lh && s.dirty[b0 + k := data] == s'.dirty
  {
    var s, s' := Filled(d, b0, data, k), Filled(d, b0, data, k + 1);
    assert s.lh + [b0 + k] == s'.lh && b0 + k !in s.lh;
    assert AllSame(b0, k + 1, data) == AllSame(b0, k, data)[b0 + k := data];
  }

  lemma FilledSizes(b0: nat, k: nat)
    ensures |FilledOps(b0, k)| == 3 && FilledOps(b0, k)[0] == Open(Share(b0, k, 0), false)
    ensures forall t :: 0 <= t < 3 ==> FilledOps(b0, k)[t].Open?
  {
  }

  /** The disk after booting from d. */
  function Booted(L: Layout, d: Disk): Disk
    requires ValidDisk(L, d)
  {
    d[L.start := PutHead(d[L.start], [])]
  }

  lemma {:induction false} FilledReachable(L: Layout, d: Disk, b0: nat, data: Block, k: nat)
    requires ValidDisk(L, d) && HeadList(d[L.start]) == [] && b0 >= L.start + L.size && b0 + LOGSIZE <= |d|
    requires k <= LOGSIZE && k < L.size
    ensures ValidDisk(L, Booted(L, d)) && Reachable(L, Filled(Booted(L, d), b0, data, k))
  {
    hide Enabled, Next, Filled, Reachable, ValidDisk, HeadList, Booted, Ready;
    var e := Booted(L, d);
    BootedIsValid(L, d);
    if k == 0 {
      ThreeOpen(L, d, b0, data);
    } else {
      FilledReachable(L, d, b0, data, k - 1);
      FilledIsOpen(e, b0, data, k - 1);
      OneTest(L, e, b0, data, k - 1, (k - 1) % 3);
      FilledGrows(L, e, b0, data, k - 1);
      ReachableStep(L, Ready(Filled(e, b0, data, k - 1), (k - 1) % 3), Write((k - 1) % 3, b0 + k - 1, data));
    }
  }

  lemma BootedIsValid(L: Layout, d: Disk)
    requires ValidDisk(L, d)
    ensures 1 <= L.size && L.start < |d|
    ensures ValidDisk(L, Booted(L, d)) && |Booted(L, d)| == |d| && HeadList(Booted(L, d)[L.start]) == []
  {
    HeadRoundTrip(d[L.start], []);
  }

  lemma FilledIsOpen(d: Disk, b0: nat, data: Block, k: nat)
    ensures var s := Filled(d, b0, data, k);
            && s.disk == d && |s.ops| == 3 && (forall t :: 0 <= t < 3 ==> s.ops[t].Open?)
            && (forall t :: 0 <= t < 3 ==> Ready(s, t).disk == d && |Ready(s, t).ops| == 3)
            && forall t, u :: 0 <= t < 3 && 0 <= u < 3 ==> Ready(s, t).ops[u].Open?
  {
  }

  /** A thread passes the test of log_write. */
  lemma OneTest(L: Layout, d: Disk, b0: nat, data: Block, k: nat, t: nat)
    requires ValidDisk(L, d) && k < LOGSIZE && k + 1 < L.size && t < 3
    requires Reachable(L, Filled(d, b0, data, k))
    ensures Reachable(L, Ready(Filled(d, b0, data, k), t))
  {
    var s := Filled(d, b0, data, k);
    assert Enabled(L, s, Test(t)) && Next(L, s, Test(t)) == Ready(s, t);
    ReachableStep(L, s, Test(t));
  }

  lemma ThreeOpen(L: Layout, d: Disk, b0: nat, data: Block)
    requires ValidDisk(L, d) && HeadList(d[L.start]) == []
    ensures Reachable(L, Filled(Booted(L, d), b0, data, 0))
  {
    var e := Booted(L, d);
    HeadRoundTrip(d[L.start], []);
    BootReachable(L, d);
    hide Reachable;
    var none := Open({}, false);
    var s := State(e, [], map[], 0, false, [Closed, Closed, Closed], Running);
    var s1 := State(e, [], map[], 1, false, [none, Closed, Closed], Running);
    var s2 := State(e, [], map[], 2, false, [none, none, Closed], Running);
    ReachableStep(L, s, Begin(0));
    assert s1 == Next(L, s, Begin(0));
    ReachableStep(L, s1, Begin(1));
    assert s2 == Next(L, s1, Begin(1));
    ReachableStep(L, s2, Begin(2));
    assert Filled(e, b0, data, 0).dirty == map[];
    assert Filled(e, b0, data, 0) == Next(L, s2, Begin(2));
  }

  lemma BootReachable(L: Layout, d: Disk)
    requires ValidDisk(L, d) && HeadList(d[L.start]) == []
    ensures Reachable(L, State(Booted(L, d), [], map[], 0, false, [Closed, Closed, Closed], Running))
  {
    var s := State(d, [], map[], 0, false, [Closed, Closed, Closed], Recovering(0));
    assert Run(L, [s], []) && [s][|[s]| - 1] == s;
    ReachableStep(L, s, RecoverErase);
  }

  /** The size condition is needed: with at most LOGSIZE log blocks (mkfs makes exactly
      LOGSIZE), three operations inside their budgets reach the panic. */
  lemma SmallLogPanics(L: Layout, d: Disk, data: Block) returns (s: State, t: nat)
    requires ValidDisk(L, d) && HeadList(d[L.start]) == [] && L.start + L.size + LOGSIZE <= |d|
    requires L.size <= LOGSIZE
    ensures Reachable(L, s) && t < |s.ops| && s.ops[t].Open? && |s.ops[t].wrote| < MAXOPBLOCKS
    ensures TooBig(L, |s.lh|)
  {
    hide Reachable, Share, Booted, Enabled, Next, ValidDisk, HeadList, FilledOps;
    BootedIsValid(L, d);
    FilledReachable(L, d, L.start + L.size, data, L.size - 1);
    OpsGrow(L.start + L.size, L.size - 1);
    FilledSizes(L.start + L.size, L.size - 1);
    s, t := Filled(Booted(L, d), L.start + L.size, data, L.size - 1), (L.size - 1) % 3;
  }

  /** And distinct-block budgets alone are not enough with a larger log: when three
      operations have logged LOGSIZE blocks, logging one of them again panics too. */
  lemma FullLogPanicsOnAbsorption(L: Layout, d: Disk, data: Block) returns (s: State, b: nat)
    requires ValidDisk(L, d) && HeadList(d[L.start]) == [] && L.start + L.size + LOGSIZE <= |d|
    requires L.size > LOGSIZE
    ensures Reachable(L, s) && |s.ops| > 0 && s.ops[0].Open?
    ensures b in s.ops[0].wrote && |s.ops[0].wrote| <= MAXOPBLOCKS
    ensures TooBig(L, |s.lh|)
  {
    hide Reachable, Share, Booted, Enabled, Next, ValidDisk, HeadList, FilledOps;
    FilledReachable(L, d, L.start + L.size, data, LOGSIZE);
    ShareSize(L.start + L.size, LOGSIZE, 0);
    FirstShare(L.start + L.size, LOGSIZE);
    FilledSizes(L.start + L.size, LOGSIZE);
    s, b := Filled(Booted(L, d), L.start + L.size, data, LOGSIZE), L.start + L.size;
  }

  // ---- a log that is too small overflows ------------------------------------------------

  lemma GrowsBesides(L: Layout, d: Disk, b0: nat, data: Block, k: nat, u: nat)
    requires ValidDisk(L, d) && k < LOGSIZE && b0 >= L.start + L.size && b0 + LOGSIZE <= |d| && u < 3 && u != k % 3
    ensures var s, step := Ready(Ready(Filled(d, b0, data, k), k % 3), u), Write(k % 3, b0 + k, data);
            Enabled(L, s, step) && Next(L, s, step) == Ready(Filled(d, b0, data, k + 1), u)
  {
    hide Share, FilledOps, AllSame, Numbers, ValidDisk;
    FilledLists(d, b0, data, k);
    OpsGrow(b0, k);
    FilledSizes(b0, k);
    var s, ops, t := Ready(Ready(Filled(d, b0, data, k), k % 3), u), FilledOps(b0, k), k % 3;
    assert Home(L, d, b0 + k);
    var grown := ops[t := Open(ops[t].wrote + {b0 + k}, false)];
    assert s.ops[t := Open(s.ops[t].wrote + {b0 + k}, false)] == grown[u := Open(grown[u].wrote, true)];
  }

  /** Two threads pass the test while one block still fits, and then both append. */
  lemma BothAppend(L: Layout, d: Disk, b0: nat, data: Block)
    requires ValidDisk(L, d) && HeadList(d[L.start]) == [] && b0 >= L.start + L.size && b0 + LOGSIZE <= |d|
    requires 2 <= L.size <= LOGSIZE
    ensures ValidDisk(L, Booted(L, d)) && Reachable(L, Filled(Booted(L, d), b0, data, L.size))
  {
    hide Enabled, Next, Filled, Reachable, ValidDisk, HeadList, Booted, Ready;
    var e, k := Booted(L, d), L.size - 2;
    BootedIsValid(L, d);
    FilledIsOpen(e, b0, data, k);
    FilledIsOpen(e, b0, data, k + 1);
    FilledReachable(L, d, b0, data, k);
    OneTest(L, e, b0, data, k, k % 3);
    SecondTest(L, e, b0, data, k, k % 3, (k + 1) % 3);
    GrowsBesides(L, e, b0, data, k, (k + 1) % 3);
    FilledGrows(L, e, b0, data, k + 1);
    var s := Ready(Ready(Filled(e, b0, data, k), k % 3), (k + 1) % 3);
    ReachableStep(L, s, Write(k % 3, b0 + k, data));
    ReachableStep(L, Ready(Filled(e, b0, data, k + 1), (k + 1) % 3), Write((k + 1) % 3, b0 + k + 1, data));
  }

  lemma SecondTest(L: Layout, d: Disk, b0: nat, data: Block, k: nat, t: nat, u: nat)
    requires ValidDisk(L, d) && k < LOGSIZE && k + 1 < L.size && t < 3 && u < 3 && t != u
    requires Reachable(L, Ready(Filled(d, b0, data, k), t))
    ensures Ready(Ready(Filled(d, b0, data, k), t), u).disk == d
    ensures Reachable(L, Ready(Ready(Filled(d, b0, data, k), t), u))
  {
    var s := Ready(Filled(d, b0, data, k), t);
    assert Enabled(L, s, Test(u)) && Next(L, s, Test(u)) == Ready(s, u);
    hide Reachable, Filled;
    ReachableStep(L, s, Test(u));
  }

  /** The disk when i blocks, all with the same contents, have been copied to the log. */
  function Copied(L: Layout, d: Disk, data: Block, i: nat): (e: Disk)
    requires L.start + i < |d|
    ensures |e| == |d| && forall b: nat :: b < |d| ==> e[b] == if L.start < b <= L.start + i then data else d[b]
  {
    if i == 0 then d else Copied(L, d, data, i - 1)[L.start + i := data]
  }

  /** The commit of n such blocks, i of them copied. */
  function Copying(L: Layout, d: Disk, b0: nat, data: Block, n: nat, i: nat): State
    requires L.start + i < |d|
  {
    State(Copied(L, d, data, i), Numbers(b0, n), AllSame(b0, n, data), 0, true, [Closed, Closed, Closed], CommitLog(i))
  }

  lemma AllEnd(L: Layout, d: Disk, b0: nat, data: Block, n: nat)
    requires ValidDisk(L, d) && 0 < n && Reachable(L, Filled(d, b0, data, n))
    ensures Reachable(L, Copying(L, d, b0, data, n, 0))
  {
    hide Share, AllSame, Reachable;
    var s := Filled(d, b0, data, n);
    var a, b := Share(b0, n, 1), Share(b0, n, 2);
    var s1 := State(d, s.lh, s.dirty, 2, false, [Closed, Open(a, false), Open(b, false)], Running);
    var s2 := State(d, s.lh, s.dirty, 1, false, [Closed, Closed, Open(b, false)], Running);
    ReachableStep(L, s, End(0));
    assert Next(L, s, End(0)) == s1;
    ReachableStep(L, s1, End(1));
    assert Next(L, s1, End(1)) == s2;
    ReachableStep(L, s2, End(2));
    assert Next(L, s2, End(2)) == Copying(L, d, b0, data, n, 0);
  }

  lemma {:induction false} AllSameAt(b0: nat, n: nat, data: Block, j: nat)
    requires j < n
    ensures b0 + j in AllSame(b0, n, data) && AllSame(b0, n, data)[b0 + j] == data
  {
    if j < n - 1 {
      AllSameAt(b0, n - 1, data, j);
    }
  }

  lemma CopyOne(L: Layout, d: Disk, b0: nat, data: Block, n: nat, i: nat)
    requires ValidDisk(L, d) && i < n && b0 >= L.start + L.size && b0 + n <= |d| && L.start + i + 1 < |d|
    ensures var s := Copying(L, d, b0, data, n, i);
            ValidDisk(L, s.disk) && Enabled(L, s, LogBlock) && Next(L, s, LogBlock) == Copying(L, d, b0, data, n, i + 1)
  {
    AllSameAt(b0, n, data, i);
    hide AllSame, HeadList;
    var s := Copying(L, d, b0, data, n, i);
    assert s.disk[L.start] == d[L.start];
  }

  lemma {:induction false} CopyReachable(L: Layout, d: Disk, b0: nat, data: Block, n: nat, i: nat)
    requires ValidDisk(L, d) && 0 < n && i <= n && b0 >= L.start + L.size && b0 + n <= |d| && L.start + i < |d|
    requires Reachable(L, Filled(d, b0, data, n))
    ensures Reachable(L, Copying(L, d, b0, data, n, i))
  {
    hide Reachable, Next, Enabled, Copying, Filled, ValidDisk;
    if i == 0 {
      AllEnd(L, d, b0, data, n);
    } else {
      CopyReachable(L, d, b0, data, n, i - 1);
      CopyOne(L, d, b0, data, n, i - 1);
      ReachableStep(L, Copying(L, d, b0, data, n, i - 1), LogBlock);
    }
  }

  ghost predicate Holds(image: map<nat, Block>, b: nat, data: Block) {
    b in image && image[b] == data
  }

  /** L.size > LOGSIZE is the exact condition for the refinement, wherever log_write can log
      anything at all: with 2 to LOGSIZE log blocks a run inside all budgets logs as many
      blocks as the log has, header included. write_log then writes past the end of the log,
      and a home block that no operation wrote changes its durable contents to `data`. With
      mkfs, that block is the first inode block. */
  lemma SmallLogOverflows(L: Layout, d: Disk, data: Block) returns (s: State)
    requires ValidDisk(L, d) && HeadList(d[L.start]) == [] && L.start + L.size + 1 + LOGSIZE <= |d|
    requires 2 <= L.size <= LOGSIZE && data != d[L.start + L.size]
    ensures Reachable(L, s) && ValidDisk(L, s.disk) && Enabled(L, s, LogBlock) &&
            ValidDisk(L, Next(L, s, LogBlock).disk)
    ensures L.start + L.size !in s.lh && L.start + L.size !in s.dirty
    ensures Holds(Durable(L, s), L.start + L.size, d[L.start + L.size])
    ensures Holds(Durable(L, Next(L, s, LogBlock)), L.start + L.size, data)
    ensures !SpecNext(Abs(L, s), LogBlock, Abs(L, Next(L, s, LogBlock)))
  {
    hide Reachable, Filled, Enabled, AllSame, ValidDisk, HeadList, Durable;
    var e, b0, n := Booted(L, d), L.start + L.size + 1, L.size;
    BootedIsValid(L, d);
    BothAppend(L, d, b0, data);
    CopyReachable(L, e, b0, data, n, n - 1);
    CopyOne(L, e, b0, data, n, n - 1);
    AllSameBelow(b0, n, data);
    s := Copying(L, e, b0, data, n, n - 1);
    SpillIsDurable(L, e, b0, data, n);
    hide Next;
  }

  lemma {:induction false} AllSameBelow(b0: nat, n: nat, data: Block)
    ensures forall b :: b in AllSame(b0, n, data) ==> b0 <= b < b0 + n
  {
    if n > 0 {
      AllSameBelow(b0, n - 1, data);
    }
  }

  lemma SpillIsDurable(L: Layout, e: Disk, b0: nat, data: Block, n: nat)
    requires ValidDisk(L, e) && HeadList(e[L.start]) == [] && n == L.size && L.start + n < |e|
    ensures var s, s' := Copying(L, e, b0, data, n, n - 1), Copying(L, e, b0, data, n, n);
            && ValidDisk(L, s.disk) && ValidDisk(L, s'.disk)
            && Holds(Durable(L, s), L.start + n, e[L.start + n]) && Holds(Durable(L, s'), L.start + n, data)
  {
    var d, d' := Copied(L, e, data, n - 1), Copied(L, e, data, n);
    assert d[L.start] == e[L.start] && d'[L.start] == e[L.start];
    DurableEmpty(L, d);
    DurableEmpty(L, d');
    assert Home(L, d, L.start + n) && Home(L, d', L.start + n);
  }
}
