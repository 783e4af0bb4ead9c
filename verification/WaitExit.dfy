/** wait and exit (kernel/proc.c:321-465, 512-595, 613-623): every interleaving of parents
    scanning the process table and children leaving it, down to single lock operations.
    A switch to the scheduler, which then lets go of the process's lock, is one step. */
module WaitExit {

  datatype Status = Unused | Sleeping | Runnable | Running | Zombie

  datatype Opt = None | Is(p: nat)

  /** Where a process is. Off: not on a CPU. Looks(i): in wait, its own lock held, about to
      look at slot i. AtChild(i): the child's lock held too. Sleeps: asleep in wait, or just
      about to switch away. WokeInit: in exit, having woken init. Leaving(op), LocksParent(op),
      GivesAway(op, i), AtOrphan(op, i): in exit, having read that its parent is op; with op's
      lock; with its own as well, about to look at slot i; with the orphan's lock too. Gone: it
      is a zombie. */
  datatype Pc =
    | Idle | Off
    | Looks(i: nat, kids: bool) | AtChild(i: nat, kids: bool) | Sleeps
    | WokeInit | Leaving(op: nat) | LocksParent(op: nat) | GivesAway(op: nat, i: nat) | AtOrphan(op: nat, i: nat) | Gone

  /** self: sleeping on its own address, as wait does. lock: who holds its lock. late: it was
      given to init after it had read, in exit, who its parent is. */
  datatype Proc = Proc(status: Status, self: bool, parent: Opt, lock: Opt, pc: Pc, onCpu: bool, late: bool)

  datatype State = State(procs: seq<Proc>, init: nat)

  datatype Step =
    | Dispatch(p: nat) | Yield(p: nat) | SleepElsewhere(p: nat) | Wake(p: nat) | Fork(p: nat, np: nat)
    | WaitStart(p: nat) | WaitSkip(p: nat) | WaitLock(p: nat) | WaitPass(p: nat) | WaitFree(p: nat) | WaitFail(p: nat)
    | WaitReturn(p: nat) | WaitSleep(p: nat) | SwitchOut(p: nat)
    | ExitWake(p: nat) | ExitStart(p: nat) | ExitLockParent(p: nat) | ExitLockSelf(p: nat)
    | ReparentSkip(p: nat) | ReparentLock(p: nat) | ReparentSet(p: nat) | ExitZombie(p: nat)

  // ---- steps ------------------------------------------------------------------------

  ghost predicate Enabled(s: State, t: Step) {
    var ps, n := s.procs, |s.procs|;
    t.p < n && s.init < n &&
    var P := ps[t.p];
    match t
    case Dispatch(p) => P.lock == None && P.status == Runnable
    case Yield(p) => P.pc == Idle && P.lock == None
    case SleepElsewhere(p) => P.pc == Idle && P.lock == None
    case Wake(p) => P.lock == None && P.status == Sleeping
    case Fork(p, np) => P.pc == Idle && np < n && np != p && ps[np].lock == None && ps[np].status == Unused
    case WaitStart(p) => P.pc == Idle && P.lock == None
    case WaitSkip(p) => P.pc.Looks? && P.pc.i < n && ps[P.pc.i].parent != Is(p)
    case WaitLock(p) => P.pc.Looks? && P.pc.i < n && ps[P.pc.i].parent == Is(p) && ps[P.pc.i].lock == None
    case WaitPass(p) => P.pc.AtChild? && P.pc.i < n && ps[P.pc.i].status != Zombie
    case WaitFree(p) => P.pc.AtChild? && P.pc.i < n && ps[P.pc.i].status == Zombie
    case WaitFail(p) => P.pc.AtChild? && P.pc.i < n && ps[P.pc.i].status == Zombie
    case WaitReturn(p) => P.pc.Looks? && P.pc.i == n
    case WaitSleep(p) => P.pc.Looks? && P.pc.i == n && P.pc.kids
    case SwitchOut(p) => (P.pc.Sleeps? || P.pc.Gone?) && P.onCpu
    case ExitWake(p) => P.pc == Idle && p != s.init && ps[s.init].lock == None
    case ExitStart(p) => P.pc == WokeInit && P.lock == None && P.parent.Is?
    case ExitLockParent(p) => P.pc.Leaving? && P.pc.op < n && ps[P.pc.op].lock == None
    case ExitLockSelf(p) => P.pc.LocksParent? && P.lock == None
    case ReparentSkip(p) => P.pc.GivesAway? && P.pc.i < n && ps[P.pc.i].parent != Is(p)
    case ReparentLock(p) => P.pc.GivesAway? && P.pc.i < n && ps[P.pc.i].parent == Is(p) && ps[P.pc.i].lock == None
    case ReparentSet(p) => P.pc.AtOrphan? && P.pc.i < n
    case ExitZombie(p) => P.pc.GivesAway? && P.pc.i == n && P.pc.op < n && P.pc.op != p
  }

  ghost function WithPc(P: Proc, pc: Pc): Proc { P.(pc := pc) }

  ghost function WithLock(P: Proc, lock: Opt): Proc { P.(lock := lock) }

  /** wakeup1 */
  ghost function Woken(P: Proc): Proc {
    if P.self && P.status == Sleeping then P.(status := Runnable) else P
  }

  /** In exit, past the read of its parent. */
  ghost predicate ReadParent(pc: Pc) {
    pc.Leaving? || pc.LocksParent? || pc.GivesAway? || pc.AtOrphan? || pc.Gone?
  }

  ghost function Next(s: State, t: Step): State
    requires Enabled(s, t)
  {
    var ps, p, n := s.procs, t.p, |s.procs|;
    var P := ps[p];
    var ps' := match t
      case Dispatch(_) =>
        if P.pc.Sleeps? then ps[p := Proc(Running, false, P.parent, Is(p), Looks(0, false), true, P.late)]
        else ps[p := Proc(Running, false, P.parent, None, Idle, true, P.late)]
      case Yield(_) => ps[p := Proc(Runnable, false, P.parent, None, Off, false, P.late)]
      case SleepElsewhere(_) => ps[p := Proc(Sleeping, false, P.parent, None, Off, false, P.late)]
      case Wake(_) => ps[p := P.(status := Runnable)]
      case Fork(_, np) => ps[np := Proc(Runnable, false, Is(p), None, Off, false, false)]
      case WaitStart(_) => ps[p := Proc(P.status, P.self, P.parent, Is(p), Looks(0, false), P.onCpu, P.late)]
      case WaitSkip(_) => ps[p := WithPc(P, Looks(P.pc.i + 1, P.pc.kids))]
      case WaitLock(_) => ps[P.pc.i := WithLock(ps[P.pc.i], Is(p))][p := WithPc(P, AtChild(P.pc.i, true))]
      case WaitPass(_) => ps[P.pc.i := WithLock(ps[P.pc.i], None)][p := WithPc(P, Looks(P.pc.i + 1, true))]
      case WaitFree(_) =>
        var ps1 := ps[P.pc.i := Proc(Unused, false, None, None, Off, ps[P.pc.i].onCpu, false)];
        ps1[p := Proc(P.status, P.self, P.parent, None, Idle, P.onCpu, P.late)]
      case WaitFail(_) =>
        var ps1 := ps[P.pc.i := WithLock(ps[P.pc.i], None)];
        ps1[p := Proc(P.status, P.self, P.parent, None, Idle, P.onCpu, P.late)]
      case WaitReturn(_) => ps[p := Proc(P.status, P.self, P.parent, None, Idle, P.onCpu, P.late)]
      case WaitSleep(_) => ps[p := Proc(Sleeping, true, P.parent, P.lock, Sleeps, P.onCpu, P.late)]
      case SwitchOut(_) => ps[p := Proc(P.status, P.self, P.parent, None, P.pc, false, P.late)]
      case ExitWake(_) => ps[s.init := Woken(ps[s.init])][p := WithPc(P, WokeInit)]
      case ExitStart(_) => ps[p := WithPc(P, Leaving(P.parent.p))]
      case ExitLockParent(_) => ps[P.pc.op := WithLock(ps[P.pc.op], Is(p))][p := WithPc(P, LocksParent(P.pc.op))]
      case ExitLockSelf(_) => ps[p := Proc(P.status, P.self, P.parent, Is(p), GivesAway(P.pc.op, 0), P.onCpu, P.late)]
      case ReparentSkip(_) => ps[p := WithPc(P, GivesAway(P.pc.op, P.pc.i + 1))]
      case ReparentLock(_) => ps[P.pc.i := WithLock(ps[P.pc.i], Is(p))][p := WithPc(P, AtOrphan(P.pc.op, P.pc.i))]
      case ReparentSet(_) =>
        var o := ps[P.pc.i];
        var ps1 := ps[P.pc.i := Proc(o.status, o.self, Is(s.init), None, o.pc, o.onCpu, o.late || ReadParent(o.pc))];
        ps1[p := WithPc(P, GivesAway(P.pc.op, P.pc.i + 1))]
      case ExitZombie(_) =>
        var ps1 := ps[P.pc.op := WithLock(Woken(ps[P.pc.op]), None)];
        ps1[p := Proc(Zombie, P.self, P.parent, P.lock, Gone, P.onCpu, P.late)];
    State(ps', s.init)
  }

  // ---- the invariant ------------------------------------------------------------------

  /** Process q, being P, holds the lock of x. */
  ghost predicate Holds(P: Proc, q: nat, x: nat) {
    match P.pc
    case Looks(_, _) => x == q
    case AtChild(i, _) => x == q || x == i
    case Sleeps => P.onCpu && x == q
    case LocksParent(op) => x == op
    case GivesAway(op, _) => x == op || x == q
    case AtOrphan(op, i) => x == op || x == q || x == i
    case Gone => P.onCpu && x == q
    case _ => false
  }

  ghost predicate LockOk(ps: seq<Proc>, x: nat, q: nat)
    requires x < |ps| && q < |ps|
  {
    ps[x].lock == Is(q) <==> Holds(ps[q], q, x)
  }

  ghost predicate Locks(ps: seq<Proc>) {
    && (forall x: nat, q: nat :: x < |ps| && q < |ps| ==> LockOk(ps, x, q))
    && (forall x: nat :: x < |ps| && ps[x].lock.Is? ==> ps[x].lock.p < |ps|)
  }

  /** The fields of one process fit together. */
  ghost predicate Fits(P: Proc) {
    match P.pc
    case Off => !P.onCpu && !P.self && P.status != Running && P.status != Zombie
    case Sleeps => if P.onCpu then P.status == Sleeping && P.self
      else (P.status == Sleeping && P.self) || P.status == Runnable
    case Gone => P.status == Zombie
    case _ => P.onCpu && P.status == Running && !P.self
  }

  /** The other processes a process has to do with. */
  ghost predicate Kin(ps: seq<Proc>, init: nat, q: nat)
    requires q < |ps|
  {
    && ps[q].parent != Is(q)
    && (ps[q].parent.Is? ==> ps[q].parent.p < |ps|)
    && (ps[q].late ==> ps[q].parent == Is(init) && ReadParent(ps[q].pc))
    && match ps[q].pc
       case AtChild(i, _) => i < |ps| && ps[i].parent == Is(q)
       case Leaving(op) => Parent(ps, init, q, op)
       case LocksParent(op) => Parent(ps, init, q, op)
       case GivesAway(op, _) => Parent(ps, init, q, op)
       case AtOrphan(op, i) => Parent(ps, init, q, op) && i < |ps| && i != op && ps[i].parent == Is(q)
       case _ => true
  }

  /** A process that is leaving has the parent it read, unless it has been given to init late. */
  ghost predicate Parent(ps: seq<Proc>, init: nat, q: nat, op: nat)
    requires q < |ps|
  {
    op < |ps| && op != q && ps[q].parent == Is(if ps[q].late then init else op) && (ps[q].late ==> op != init)
  }

  /** No child among the first n processes is a zombie, unless it was given to init late. */
  ghost predicate NoZombies(ps: seq<Proc>, p: nat, n: nat) {
    forall c: nat :: c < n && c < |ps| && ps[c].parent == Is(p) && !ps[c].late ==> ps[c].status != Zombie
  }

  /** What a parent in wait has made sure of. */
  ghost predicate Checked(ps: seq<Proc>, p: nat)
    requires p < |ps|
  {
    match ps[p].pc
    case Looks(i, _) => NoZombies(ps, p, i)
    case AtChild(i, _) => NoZombies(ps, p, i)
    case Sleeps => ps[p].status == Sleeping ==> NoZombies(ps, p, |ps|)
    case _ => true
  }

  /** init has no parent and never exits. */
  ghost predicate InitOk(ps: seq<Proc>, init: nat) {
    init < |ps| && ps[init].parent == None && ps[init].status != Unused && ps[init].status != Zombie
  }

  ghost predicate Inv(s: State) {
    && InitOk(s.procs, s.init)
    && Locks(s.procs)
    && (forall q: nat :: q < |s.procs| ==> Fits(s.procs[q]))
    && (forall q: nat :: q < |s.procs| ==> Kin(s.procs, s.init, q))
    && (forall q: nat :: q < |s.procs| ==> Checked(s.procs, q))
  }

  // ---- what the invariant says ------------------------------------------------------------

  /** A parent is never asleep in wait while a child is a zombie, except that init may be when
      the child was given to it late. */
  lemma NoMissedChild(s: State, p: nat, c: nat)
    requires Inv(s) && p < |s.procs| && c < |s.procs|
    requires s.procs[p].status == Sleeping && s.procs[p].self && s.procs[c].parent == Is(p) &&
             s.procs[c].status == Zombie
    ensures p == s.init && s.procs[c].late
  {
    assert Fits(s.procs[p]) && Checked(s.procs, p) && Kin(s.procs, s.init, c);
  }

  /** wait frees only a child of the caller, and only once it is off its CPU for good. */
  lemma FreedIsOffCpu(s: State, p: nat)
    requires Inv(s) && Enabled(s, WaitFree(p))
    ensures var c := s.procs[s.procs[p].pc.i]; c.status == Zombie && c.parent == Is(p) && !c.onCpu
  {
    var i := s.procs[p].pc.i;
    assert Kin(s.procs, s.init, p) && Fits(s.procs[i]);
    assert LockOk(s.procs, i, p) && LockOk(s.procs, i, i);
  }

  // ---- each step keeps it ---------------------------------------------------------------

  /** The other process a step touches, besides t.p. */
  ghost function Touched(s: State, t: Step): nat
    requires Enabled(s, t)
  {
    var P := s.procs[t.p];
    match t
    case Fork(_, np) => np
    case WaitLock(_) => P.pc.i
    case WaitPass(_) => P.pc.i
    case WaitFree(_) => P.pc.i
    case WaitFail(_) => P.pc.i
    case ReparentLock(_) => P.pc.i
    case ReparentSet(_) => P.pc.i
    case ExitLockParent(_) => P.pc.op
    case ExitZombie(_) => P.pc.op
    case ExitWake(_) => s.init
    case _ => t.p
  }

  lemma OthersSame(s: State, t: Step, q: nat)
    requires Enabled(s, t) && q < |s.procs| && q != t.p && q != Touched(s, t)
    ensures |Next(s, t).procs| == |s.procs| && Next(s, t).procs[q] == s.procs[q]
  {
  }

  /** A step changes another process's place only by fork and by freeing it. */
  lemma TouchedPc(s: State, t: Step)
    requires Inv(s) && Enabled(s, t)
    ensures t.p < |s.procs| && Touched(s, t) < |s.procs| == |Next(s, t).procs|
    ensures Touched(s, t) != t.p && !t.Fork? && !t.WaitFree? ==>
              var q := Touched(s, t);
              Next(s, t).procs[q].pc == s.procs[q].pc && Next(s, t).procs[q].onCpu == s.procs[q].onCpu
  {
    hide Locks, Fits, Checked;
    assert Kin(s.procs, s.init, t.p);
  }

  ghost predicate LocksAround(ps: seq<Proc>, x: nat, q: nat, p: nat, y: nat)
    requires x < |ps| && q < |ps| && p < |ps| && y < |ps|
  {
    && LockOk(ps, x, q) && LockOk(ps, x, p) && LockOk(ps, p, q) && LockOk(ps, p, p)
    && LockOk(ps, y, q) && LockOk(ps, y, p) && LockOk(ps, x, y) && LockOk(ps, y, y)
    && Fits(ps[p]) && Fits(ps[q]) && Fits(ps[x]) && Fits(ps[y])
  }

  ghost predicate InExit(t: Step) {
    t.ExitWake? || t.ExitStart? || t.ExitLockParent? || t.ExitLockSelf? || t.ReparentSkip? || t.ReparentLock? ||
    t.ReparentSet? || t.ExitZombie?
  }

  ghost predicate TakesLock(t: Step) {
    t.ExitLockParent? || t.ExitLockSelf? || t.ReparentLock?
  }

  lemma LockStepTakes(s: State, t: Step, x: nat, q: nat)
    requires Enabled(s, t) && x < |s.procs| && q < |s.procs| && Touched(s, t) < |s.procs| == |Next(s, t).procs|
    requires LocksAround(s.procs, x, q, t.p, Touched(s, t)) && Kin(s.procs, s.init, t.p) && TakesLock(t)
    ensures LockOk(Next(s, t).procs, x, q)
  {
  }

  lemma LockStepExit(s: State, t: Step, x: nat, q: nat)
    requires Enabled(s, t) && x < |s.procs| && q < |s.procs| && Touched(s, t) < |s.procs| == |Next(s, t).procs|
    requires LocksAround(s.procs, x, q, t.p, Touched(s, t)) && Kin(s.procs, s.init, t.p) && InExit(t) && !TakesLock(t)
    ensures LockOk(Next(s, t).procs, x, q)
  {
  }

  lemma LockStepElse(s: State, t: Step, x: nat, q: nat)
    requires Enabled(s, t) && x < |s.procs| && q < |s.procs| && Touched(s, t) < |s.procs| == |Next(s, t).procs|
    requires LocksAround(s.procs, x, q, t.p, Touched(s, t)) && Kin(s.procs, s.init, t.p) && !InExit(t)
    ensures LockOk(Next(s, t).procs, x, q)
  {
  }

  lemma LockStep(s: State, t: Step, x: nat, q: nat)
    requires Inv(s) && Enabled(s, t) && x < |s.procs| && q < |s.procs|
    ensures |Next(s, t).procs| == |s.procs| && LockOk(Next(s, t).procs, x, q)
  {
    hide Enabled, Next, Touched, LockOk, Fits, Kin;
    TouchedPc(s, t);
    assert LocksAround(s.procs, x, q, t.p, Touched(s, t));
    if TakesLock(t) {
      LockStepTakes(s, t, x, q);
    } else if InExit(t) {
      LockStepExit(s, t, x, q);
    } else {
      LockStepElse(s, t, x, q);
    }
  }

  lemma FitsSelfExit(s: State, t: Step)
    requires Enabled(s, t) && Fits(s.procs[t.p]) && Kin(s.procs, s.init, t.p) && InExit(t)
    ensures |Next(s, t).procs| == |s.procs| && Fits(Next(s, t).procs[t.p])
  {
  }

  lemma FitsSelfElse(s: State, t: Step)
    requires Enabled(s, t) && Fits(s.procs[t.p]) && Kin(s.procs, s.init, t.p) && !InExit(t)
    requires LockOk(s.procs, t.p, t.p)
    ensures |Next(s, t).procs| == |s.procs| && Fits(Next(s, t).procs[t.p])
  {
  }

  lemma FitsOther(s: State, t: Step, q: nat)
    requires Enabled(s, t) && q < |s.procs| && q != t.p && Fits(s.procs[q]) && LockOk(s.procs, q, q) &&
             LockOk(s.procs, q, t.p)
    ensures |Next(s, t).procs| == |s.procs| && Fits(Next(s, t).procs[q])
  {
  }

  lemma FitsStep(s: State, t: Step, q: nat)
    requires Inv(s) && Enabled(s, t) && q < |s.procs|
    ensures |Next(s, t).procs| == |s.procs| && Fits(Next(s, t).procs[q])
  {
    TouchedPc(s, t);
    hide Enabled, Next, Touched, LockOk, Fits, Checked, Kin;
    if q != t.p {
      FitsOther(s, t, q);
    } else if InExit(t) {
      FitsSelfExit(s, t);
    } else {
      FitsSelfElse(s, t);
    }
  }

  lemma InitStep(s: State, t: Step)
    requires Inv(s) && Enabled(s, t)
    ensures InitOk(Next(s, t).procs, s.init)
  {
    assert Kin(s.procs, s.init, t.p) && Fits(s.procs[t.p]) && Fits(s.procs[s.init]);
    hide Locks, Checked;
  }

  /** The slot that process q is working on. */
  ghost function Slot(P: Proc, q: nat): nat {
    match P.pc
    case AtChild(i, _) => i
    case AtOrphan(_, i) => i
    case GivesAway(op, i) => op
    case _ => q
  }

  /** Who becomes whose child in a step. */
  ghost predicate ParentKept(s: State, t: Step, x: nat)
    requires Enabled(s, t) && x < |s.procs| == |Next(s, t).procs|
  {
    var P, P' := s.procs[x], Next(s, t).procs[x];
    || (P'.parent == P.parent && P'.late == P.late)
    || (t.Fork? && P.status == Unused && P.lock == None && P'.parent == Is(t.p) && P'.pc == Off &&
        P'.status == Runnable && x != t.p && !P'.late)
    || (t.WaitFree? && P.status == Zombie && P'.parent == None && P.parent == Is(t.p) && P'.pc == Off && !P'.late)
    || (t.ReparentSet? && P.parent == Is(t.p) && P'.parent == Is(s.init) && P'.status == P.status && P'.pc == P.pc &&
        P'.late == (P.late || ReadParent(P.pc)))
  }

  lemma ParentStepExit(s: State, t: Step, x: nat)
    requires Enabled(s, t) && x < |s.procs| && Kin(s.procs, s.init, t.p)
    requires InExit(t)
    ensures |Next(s, t).procs| == |s.procs| && ParentKept(s, t, x)
    ensures x != t.p ==> Next(s, t).procs[x].pc == s.procs[x].pc || Next(s, t).procs[x].pc == Off
  {
  }

  lemma ParentStepElse(s: State, t: Step, x: nat)
    requires Enabled(s, t) && x < |s.procs| && Kin(s.procs, s.init, t.p)
    requires !InExit(t)
    ensures |Next(s, t).procs| == |s.procs| && ParentKept(s, t, x)
    ensures x != t.p ==> Next(s, t).procs[x].pc == s.procs[x].pc || Next(s, t).procs[x].pc == Off
  {
  }

  lemma ParentStep(s: State, t: Step, x: nat)
    requires Enabled(s, t) && x < |s.procs| && Kin(s.procs, s.init, t.p)
    ensures |Next(s, t).procs| == |s.procs| && ParentKept(s, t, x)
    ensures x != t.p ==> Next(s, t).procs[x].pc == s.procs[x].pc || Next(s, t).procs[x].pc == Off
  {
    hide Enabled, Next, Kin, ParentKept;
    if InExit(t) { ParentStepExit(s, t, x); } else { ParentStepElse(s, t, x); }
  }

  lemma ReparentIsNotInit(s: State, t: Step)
    requires Enabled(s, t) && InitOk(s.procs, s.init) && Kin(s.procs, s.init, t.p)
    ensures t.ReparentSet? ==> t.p != s.init
  {
  }

  lemma KinOtherExit(s: State, t: Step, q: nat)
    requires Enabled(s, t) && q < |s.procs| && q != t.p && InitOk(s.procs, s.init)
    requires Kin(s.procs, s.init, q) && Kin(s.procs, s.init, t.p) && Fits(s.procs[q])
    requires var i := Slot(s.procs[q], q); i < |s.procs| && LockOk(s.procs, i, q)
    requires InExit(t)
    ensures |Next(s, t).procs| == |s.procs| && Kin(Next(s, t).procs, s.init, q)
  {
    ReparentIsNotInit(s, t);
    ParentStepExit(s, t, q);
    ParentStepExit(s, t, Slot(s.procs[q], q));
    hide Enabled, Next, Fits;
  }

  lemma KinOtherElse(s: State, t: Step, q: nat)
    requires Enabled(s, t) && q < |s.procs| && q != t.p && InitOk(s.procs, s.init)
    requires Kin(s.procs, s.init, q) && Kin(s.procs, s.init, t.p) && Fits(s.procs[q])
    requires var i := Slot(s.procs[q], q); i < |s.procs| && LockOk(s.procs, i, q)
    requires !InExit(t)
    ensures |Next(s, t).procs| == |s.procs| && Kin(Next(s, t).procs, s.init, q)
  {
    ParentStepElse(s, t, q);
    ParentStepElse(s, t, Slot(s.procs[q], q));
    hide Enabled, Next;
  }

  lemma KinOther(s: State, t: Step, q: nat)
    requires Enabled(s, t) && q < |s.procs| && q != t.p && InitOk(s.procs, s.init)
    requires Kin(s.procs, s.init, q) && Kin(s.procs, s.init, t.p) && Fits(s.procs[q])
    requires var i := Slot(s.procs[q], q); i < |s.procs| && LockOk(s.procs, i, q)
    ensures |Next(s, t).procs| == |s.procs| && Kin(Next(s, t).procs, s.init, q)
  {
    hide Enabled, Next, Kin, Fits, LockOk, Slot, InitOk;
    if InExit(t) { KinOtherExit(s, t, q); } else { KinOtherElse(s, t, q); }
  }

  lemma KinSelfExit(s: State, t: Step)
    requires Enabled(s, t) && InitOk(s.procs, s.init)
    requires Touched(s, t) < |s.procs| == |Next(s, t).procs|
    requires Kin(s.procs, s.init, t.p) && Fits(s.procs[t.p])
    requires var i := Slot(s.procs[t.p], t.p); i < |s.procs| && LockOk(s.procs, i, t.p)
    requires InExit(t)
    ensures Kin(Next(s, t).procs, s.init, t.p)
  {
  }

  lemma KinSelfElse(s: State, t: Step)
    requires Enabled(s, t) && InitOk(s.procs, s.init)
    requires Touched(s, t) < |s.procs| == |Next(s, t).procs|
    requires Kin(s.procs, s.init, t.p) && Fits(s.procs[t.p])
    requires var i := Slot(s.procs[t.p], t.p); i < |s.procs| && LockOk(s.procs, i, t.p)
    requires !InExit(t)
    ensures Kin(Next(s, t).procs, s.init, t.p)
  {
  }

  lemma KinSelf(s: State, t: Step)
    requires Enabled(s, t) && InitOk(s.procs, s.init)
    requires Touched(s, t) < |s.procs| == |Next(s, t).procs|
    requires Kin(s.procs, s.init, t.p) && Fits(s.procs[t.p])
    requires var i := Slot(s.procs[t.p], t.p); i < |s.procs| && LockOk(s.procs, i, t.p)
    ensures Kin(Next(s, t).procs, s.init, t.p)
  {
    hide Enabled, Next, Kin, Fits, LockOk, Touched;
    if InExit(t) { KinSelfExit(s, t); } else { KinSelfElse(s, t); }
  }

  lemma KinStep(s: State, t: Step, q: nat)
    requires Inv(s) && Enabled(s, t) && q < |s.procs|
    ensures |Next(s, t).procs| == |s.procs| && Kin(Next(s, t).procs, s.init, q)
  {
    hide Enabled, Next, Touched, LockOk, Fits, Checked;
    TouchedPc(s, t);
    assert Kin(s.procs, s.init, q) && Kin(s.procs, s.init, t.p);
    var i := Slot(s.procs[q], q);
    assert LockOk(s.procs, i, q) && LockOk(s.procs, i, t.p);
    if q == t.p { KinSelf(s, t); } else { KinOther(s, t, q); }
  }

  lemma StatusStep(s: State, t: Step, c: nat)
    requires Enabled(s, t) && c < |s.procs| && Kin(s.procs, s.init, t.p)
    ensures |Next(s, t).procs| == |s.procs|
    ensures Next(s, t).procs[c].status == Zombie ==> s.procs[c].status == Zombie || (t.ExitZombie? && c == t.p)
    ensures c != t.p && Next(s, t).procs[c].status == Sleeping ==> s.procs[c].status == Sleeping
  {
  }

  /** No child turns into a zombie under its parent's eyes, except by the last step of exit. */
  lemma NoZombiesStep(s: State, t: Step, r: nat, n: nat)
    requires Enabled(s, t) && Kin(s.procs, s.init, t.p) && NoZombies(s.procs, r, n)
    requires t.ExitZombie? ==> s.procs[t.p].parent != Is(r) || s.procs[t.p].late
    requires forall q: nat :: q < |s.procs| ==> Fits(s.procs[q])
    ensures NoZombies(Next(s, t).procs, r, n)
  {
    forall c: nat | c < n && c < |s.procs| && |Next(s, t).procs| == |s.procs| && Next(s, t).procs[c].parent == Is(r) &&
                    !Next(s, t).procs[c].late
      ensures Next(s, t).procs[c].status != Zombie
    {
      ParentStep(s, t, c);
      StatusStep(s, t, c);
      assert Fits(s.procs[c]);
      hide Enabled, Next;
    }
    StatusStep(s, t, t.p);
  }

  lemma CheckedOther(s: State, t: Step, r: nat)
    requires Inv(s) && Enabled(s, t) && r < |s.procs| && r != t.p
    ensures |Next(s, t).procs| == |s.procs| && Checked(Next(s, t).procs, r)
  {
    var ps := s.procs;
    assert Kin(ps, s.init, t.p) && Checked(ps, r) && LockOk(ps, r, r) && LockOk(ps, r, t.p);
    ParentStep(s, t, r);
    StatusStep(s, t, r);
    if t.ExitZombie? && ps[t.p].parent == Is(r) && !ps[t.p].late {
      ZombieWakes(s, t, r);
    } else {
      match ps[r].pc
      case Looks(i, _) => NoZombiesStep(s, t, r, i);
      case AtChild(i, _) => NoZombiesStep(s, t, r, i);
      case Sleeps => if ps[r].status == Sleeping { NoZombiesStep(s, t, r, |ps|); }
      case _ =>
    }
    hide Enabled, Next, Locks, Kin, Fits;
  }

  /** exit holds its parent's lock while it wakes it and becomes a zombie. */
  lemma ZombieWakes(s: State, t: Step, r: nat)
    requires Enabled(s, t) && t.ExitZombie? && Kin(s.procs, s.init, t.p) && r < |s.procs| &&
             s.procs[t.p].parent == Is(r) && !s.procs[t.p].late
    requires LockOk(s.procs, r, r) && LockOk(s.procs, r, t.p) && Fits(s.procs[r]) && r != t.p
    ensures |Next(s, t).procs| == |s.procs| && Checked(Next(s, t).procs, r)
  {
  }

  lemma CheckedSelf(s: State, t: Step)
    requires Inv(s) && Enabled(s, t)
    ensures |Next(s, t).procs| == |s.procs| && Checked(Next(s, t).procs, t.p)
  {
    var ps := s.procs;
    assert Kin(ps, s.init, t.p) && Checked(ps, t.p) && Fits(ps[t.p]);
    StatusStep(s, t, t.p);
    match ps[t.p].pc
    case Looks(i, _) => NoZombiesStep(s, t, t.p, i); OwnScan(s, t);
    case AtChild(i, _) => NoZombiesStep(s, t, t.p, i); OwnScan(s, t);
    case Sleeps => if ps[t.p].status == Sleeping { NoZombiesStep(s, t, t.p, |ps|); } OwnScan(s, t);
    case _ => OwnScan(s, t);
  }

  lemma OwnScan(s: State, t: Step)
    requires Enabled(s, t) && Kin(s.procs, s.init, t.p) && Fits(s.procs[t.p]) && |Next(s, t).procs| == |s.procs|
    requires match s.procs[t.p].pc
      case Looks(i, _) => NoZombies(Next(s, t).procs, t.p, i)
      case AtChild(i, _) => NoZombies(Next(s, t).procs, t.p, i)
      case Sleeps => s.procs[t.p].status == Sleeping ==> NoZombies(Next(s, t).procs, t.p, |s.procs|)
      case _ => true
    ensures Checked(Next(s, t).procs, t.p)
  {
    if InExit(t) { OwnExit(s, t); }
    hide NoZombies;
  }

  lemma OwnExit(s: State, t: Step)
    requires Enabled(s, t) && InExit(t)
    ensures |Next(s, t).procs| == |s.procs| && !Next(s, t).procs[t.p].pc.Looks? && !Next(s, t).procs[t.p].pc.AtChild?
    ensures !Next(s, t).procs[t.p].pc.Sleeps?
  {
  }

  ghost predicate AsleepInWait(P: Proc) { P.status == Sleeping && P.self }

  ghost predicate Wakes(s: State, t: Step, q: nat)
    requires Enabled(s, t) && q < |s.procs|
  {
    || t == Wake(q)
    || (t.ExitWake? && q == s.init && AsleepInWait(s.procs[q]))
    || (t.ExitZombie? && q == s.procs[t.p].pc.op && AsleepInWait(s.procs[q]))
  }

  lemma WhoWakesExit(s: State, t: Step, q: nat)
    requires Enabled(s, t) && q < |s.procs| && s.procs[q].status == Sleeping && InExit(t)
    requires Fits(s.procs[q]) && Fits(s.procs[t.p]) && Kin(s.procs, s.init, t.p)
    ensures |Next(s, t).procs| == |s.procs| && (Next(s, t).procs[q].status != Sleeping <==> Wakes(s, t, q))
  {
  }

  lemma WhoWakesElse(s: State, t: Step, q: nat)
    requires Enabled(s, t) && q < |s.procs| && s.procs[q].status == Sleeping && !InExit(t)
    requires Fits(s.procs[q]) && Fits(s.procs[t.p]) && Kin(s.procs, s.init, t.p)
    ensures |Next(s, t).procs| == |s.procs| && (Next(s, t).procs[q].status != Sleeping <==> Wakes(s, t, q))
  {
  }

  /** Sleep begins only in wait, or in the process's own call of sleep elsewhere. */
  lemma WhoSleeps(s: State, t: Step, q: nat)
    requires Inv(s) && Enabled(s, t) && q < |s.procs| == |Next(s, t).procs|
    ensures s.procs[q].status != Sleeping && Next(s, t).procs[q].status == Sleeping ==>
              t == SleepElsewhere(q) || (t == WaitSleep(q) && AsleepInWait(Next(s, t).procs[q]))
  {
    assert Fits(s.procs[t.p]) && Kin(s.procs, s.init, t.p);
    hide Locks, Checked, Fits;
  }

  /** Exit wakes init when it starts, and the parent it read when it ends, if they are asleep
      in wait; any other sleep goes on, unless somebody else wakes the process. */
  lemma WhoWakes(s: State, t: Step, q: nat)
    requires Inv(s) && Enabled(s, t) && q < |s.procs| && s.procs[q].status == Sleeping
    ensures |Next(s, t).procs| == |s.procs|
    ensures Next(s, t).procs[q].status != Sleeping <==>
              || t == Wake(q)
              || (t.ExitWake? && q == s.init && AsleepInWait(s.procs[q]))
              || (t.ExitZombie? && q == s.procs[t.p].pc.op && AsleepInWait(s.procs[q]))
  {
    TouchedPc(s, t);
    assert Fits(s.procs[q]) && Fits(s.procs[t.p]) && Kin(s.procs, s.init, t.p);
    hide Locks, Checked, Kin, Fits, Next;
    if InExit(t) { WhoWakesExit(s, t, q); } else { WhoWakesElse(s, t, q); }
  }

  /** Every step keeps the invariant. */
  lemma StepInv(s: State, t: Step)
    requires Inv(s) && Enabled(s, t)
    ensures Inv(Next(s, t))
  {
    InitStep(s, t);
    TouchedPc(s, t);
    LockHolders(s, t);
    forall x: nat, q: nat | x < |s.procs| && q < |s.procs| ensures LockOk(Next(s, t).procs, x, q) {
      LockStep(s, t, x, q);
    }
    forall q: nat | q < |s.procs| ensures Fits(Next(s, t).procs[q]) && Kin(Next(s, t).procs, s.init, q) {
      FitsStep(s, t, q);
      KinStep(s, t, q);
    }
    forall q: nat | q < |s.procs| ensures Checked(Next(s, t).procs, q) {
      if q == t.p { CheckedSelf(s, t); } else { CheckedOther(s, t, q); }
    }
    hide Enabled, LockOk, Fits, Kin, Checked, InitOk;
  }

  lemma LockHolders(s: State, t: Step)
    requires Inv(s) && Enabled(s, t)
    ensures forall x: nat :: x < |Next(s, t).procs| && Next(s, t).procs[x].lock.Is? ==>
              Next(s, t).procs[x].lock.p < |s.procs|
    ensures Next(s, t).init == s.init
  {
    hide LockOk, Checked, Fits;
    assert Kin(s.procs, s.init, t.p);
  }

  // ---- whose child nobody is ---------------------------------------------------------------

  ghost predicate IsChild(ps: seq<Proc>, p: nat, c: nat) { c < |ps| && ps[c].parent == Is(p) }

  /** No slot below n holds a child of p. */
  ghost predicate NoChild(ps: seq<Proc>, p: nat, n: nat) {
    forall c: nat :: c < n ==> !IsChild(ps, p, c)
  }

  ghost predicate HasChild(ps: seq<Proc>, p: nat) {
    exists c: nat :: IsChild(ps, p, c)
  }

  /** What a process knows about its children: in wait, whether it has any, init apart, which
      may be given some at any time; in exit, that those in the slots it has passed are gone. */
  ghost predicate Counted(ps: seq<Proc>, init: nat, p: nat)
    requires p < |ps|
  {
    && (ps[p].status == Unused ==> ps[p].parent == None && NoChild(ps, p, |ps|))
    && match ps[p].pc
       case Looks(i, kids) => if kids then HasChild(ps, p) else p != init ==> NoChild(ps, p, i)
       case Sleeps => ps[p].status == Sleeping ==> HasChild(ps, p)
       case GivesAway(_, i) => NoChild(ps, p, i)
       case AtOrphan(_, i) => NoChild(ps, p, i)
       case Gone => NoChild(ps, p, |ps|)
       case _ => true
  }

  ghost predicate Families(s: State) {
    forall p: nat :: p < |s.procs| ==> Counted(s.procs, s.init, p)
  }

  /** A process gets a child only by its own fork, and init by a process that exits. */
  lemma NoChildStep(s: State, t: Step, r: nat, n: nat)
    requires Enabled(s, t) && Kin(s.procs, s.init, t.p) && NoChild(s.procs, r, n)
    requires (t.Fork? ==> r != t.p) && (t.ReparentSet? ==> r != s.init)
    ensures NoChild(Next(s, t).procs, r, n)
  {
    StatusStep(s, t, t.p);
    hide Enabled, Next, Kin;
    forall c: nat | c < n ensures !IsChild(Next(s, t).procs, r, c) {
      if c < |s.procs| {
        assert !IsChild(s.procs, r, c);
        ParentStep(s, t, c);
      }
    }
  }

  /** And loses one only by freeing it in wait, or in exit. */
  lemma HasChildStep(s: State, t: Step, r: nat)
    requires Enabled(s, t) && Kin(s.procs, s.init, t.p) && HasChild(s.procs, r) && Families(s)
    requires t.p == r ==> !t.WaitFree? && !t.ReparentSet?
    ensures HasChild(Next(s, t).procs, r)
  {
    hide Enabled, Next, Kin, NoChild;
    var c: nat :| IsChild(s.procs, r, c);
    ParentStep(s, t, c);
    assert Counted(s.procs, s.init, c);
    assert IsChild(Next(s, t).procs, r, c);
  }

  ghost predicate UnusedAfter(s: State, t: Step, r: nat)
    requires Enabled(s, t) && r < |s.procs| == |Next(s, t).procs|
  {
    var P, P' := s.procs[r], Next(s, t).procs[r];
    && (P'.status == Unused ==> P.status == Unused || (t.WaitFree? && P.status == Zombie && r == s.procs[t.p].pc.i))
    && (t.WaitFree? && r == s.procs[t.p].pc.i ==> P'.parent == None)
    && (P.status == Unused && P'.status == Unused ==> P'.parent == P.parent || t.ReparentSet?)
  }

  lemma UnusedStepExit(s: State, t: Step, r: nat)
    requires Enabled(s, t) && r < |s.procs| && Fits(s.procs[t.p]) && Kin(s.procs, s.init, t.p) && InExit(t)
    ensures |Next(s, t).procs| == |s.procs| && UnusedAfter(s, t, r)
  {
  }

  lemma UnusedStepElse(s: State, t: Step, r: nat)
    requires Enabled(s, t) && r < |s.procs| && Fits(s.procs[t.p]) && Kin(s.procs, s.init, t.p) && !InExit(t)
    ensures |Next(s, t).procs| == |s.procs| && UnusedAfter(s, t, r)
  {
  }

  lemma UnusedStep(s: State, t: Step, r: nat)
    requires Enabled(s, t) && r < |s.procs| && Fits(s.procs[t.p]) && Kin(s.procs, s.init, t.p)
    ensures |Next(s, t).procs| == |s.procs| && UnusedAfter(s, t, r)
  {
    hide Enabled, Next, Fits, Kin, UnusedAfter;
    if InExit(t) { UnusedStepExit(s, t, r); } else { UnusedStepElse(s, t, r); }
  }

  lemma CountedOther(s: State, t: Step, r: nat)
    requires Enabled(s, t) && r < |s.procs| && r != t.p && InitOk(s.procs, s.init) && Families(s)
    requires Kin(s.procs, s.init, t.p) && Kin(s.procs, s.init, r) && Fits(s.procs[t.p]) && Fits(s.procs[r])
    ensures |Next(s, t).procs| == |s.procs| && Counted(Next(s, t).procs, s.init, r)
  {
    hide Enabled, Next, NoChild, HasChild;
    var ps := s.procs;
    assert Counted(ps, s.init, r);
    ParentStep(s, t, r);
    StatusStep(s, t, r);
    UnusedStep(s, t, r);
    if HasChild(ps, r) { HasChildStep(s, t, r); }
    if r != s.init {
      forall n: nat | NoChild(ps, r, n) ensures NoChild(Next(s, t).procs, r, n) { NoChildStep(s, t, r, n); }
    }
  }

  /** What t.p is at before and after its step in wait, as far as its children go. */
  lemma WaitSelf(s: State, t: Step)
    requires Enabled(s, t) && Fits(s.procs[t.p]) && Kin(s.procs, s.init, t.p) && !InExit(t)
    ensures |Next(s, t).procs| == |s.procs|
    ensures var P, P' := s.procs[t.p], Next(s, t).procs[t.p];
            && P'.status != Unused && !P'.pc.GivesAway? && !P'.pc.AtOrphan?
            && (P'.pc.Gone? ==> P.pc.Gone?)
            && (P'.pc.Sleeps? ==> (P.pc.Looks? && P.pc.kids) || (P.pc.Sleeps? && P'.status == P.status) ||
                                  P'.status != Sleeping)
            && (P'.pc.Looks? ==>
                  || P'.pc == Looks(0, false)
                  || (P.pc.Looks? && P'.pc == Looks(P.pc.i + 1, P.pc.kids) && !IsChild(s.procs, t.p, P.pc.i))
                  || (P.pc.AtChild? && P'.pc.kids && IsChild(s.procs, t.p, P.pc.i)))
            && (P'.pc.Looks? || P'.pc.Sleeps? ==> !t.WaitFree?)
            && (P'.pc.Looks? || P'.pc.Sleeps? || P'.pc.Gone? ==> !t.Fork?)
  {
  }

  lemma MoreSlots(ps: seq<Proc>, p: nat, i: nat)
    requires NoChild(ps, p, i) && !IsChild(ps, p, i)
    ensures NoChild(ps, p, i + 1)
  {
  }

  lemma CountedWait(s: State, t: Step)
    requires Inv(s) && Families(s) && Enabled(s, t) && !InExit(t)
    ensures |Next(s, t).procs| == |s.procs| && Counted(Next(s, t).procs, s.init, t.p)
  {
    var ps, p := s.procs, t.p;
    var P, ps' := ps[p], Next(s, t).procs;
    assert Kin(ps, s.init, p) && Fits(P) && Counted(ps, s.init, p);
    WaitSelf(s, t);
    hide Enabled, Next, Locks, Checked, NoChild, Fits, Kin;
    var pc := ps'[p].pc;
    if pc.Looks? || pc.Sleeps? {
      if P.pc.AtChild? && IsChild(ps, p, P.pc.i) { assert HasChild(ps, p); }
      if HasChild(ps, p) { HasChildStep(s, t, p); }
    }
    if pc.Looks? && !pc.kids {
      assert NoChild(ps', p, 0) by { NoneBelow(ps', p); }
      if P.pc.Looks? && NoChild(ps, p, P.pc.i) && !IsChild(ps, p, P.pc.i) {
        MoreSlots(ps, p, P.pc.i);
        NoChildStep(s, t, p, P.pc.i + 1);
      }
    }
    if pc.Gone? { NoChildStep(s, t, p, |ps|); }
  }

  lemma NoneBelow(ps: seq<Proc>, p: nat)
    ensures NoChild(ps, p, 0)
  {
  }

  /** The same for exit: the slot just passed holds no child of t.p any more. */
  lemma ExitSelf(s: State, t: Step)
    requires Enabled(s, t) && Fits(s.procs[t.p]) && Kin(s.procs, s.init, t.p) && InitOk(s.procs, s.init) && InExit(t)
    ensures |Next(s, t).procs| == |s.procs|
    ensures var P, P' := s.procs[t.p], Next(s, t).procs[t.p];
            && P'.status != Unused && !P'.pc.Looks? && !P'.pc.Sleeps?
            && (P'.pc.Gone? ==> P.pc.GivesAway? && P.pc.i == |s.procs|)
            && (P'.pc.AtOrphan? ==> P.pc.GivesAway? && P'.pc.i == P.pc.i)
            && (P'.pc.GivesAway? ==>
                  || P'.pc.i == 0
                  || ((P.pc.GivesAway? || P.pc.AtOrphan?) && P'.pc.i == P.pc.i + 1 &&
                      !IsChild(Next(s, t).procs, t.p, P.pc.i)))
            && (t.ReparentSet? ==> t.p != s.init)
  {
  }

  lemma CountedExit(s: State, t: Step)
    requires Inv(s) && Families(s) && Enabled(s, t) && InExit(t)
    ensures |Next(s, t).procs| == |s.procs| && Counted(Next(s, t).procs, s.init, t.p)
  {
    var ps, p := s.procs, t.p;
    var P, ps' := ps[p], Next(s, t).procs;
    assert Kin(ps, s.init, p) && Fits(P) && Counted(ps, s.init, p);
    ExitSelf(s, t);
    hide Enabled, Next, Locks, Checked, NoChild, Fits, Kin;
    NoneBelow(ps', p);
    if P.pc.GivesAway? || P.pc.AtOrphan? {
      NoChildStep(s, t, p, P.pc.i);
      if !IsChild(ps', p, P.pc.i) { MoreSlots(ps', p, P.pc.i); }
    }
  }

  /** Every step keeps what the processes know about their children. */
  lemma StepFamilies(s: State, t: Step)
    requires Inv(s) && Families(s) && Enabled(s, t)
    ensures Families(Next(s, t))
  {
    TouchedPc(s, t);
    LockHolders(s, t);
    hide Enabled, Next, Counted, InitOk, Locks, Fits, Kin, Checked;
    forall r: nat | r < |Next(s, t).procs| ensures Counted(Next(s, t).procs, s.init, r) {
      if r != t.p {
        assert Kin(s.procs, s.init, r);
        CountedOther(s, t, r);
      } else if InExit(t) {
        CountedExit(s, t);
      } else {
        CountedWait(s, t);
      }
    }
  }

  // ---- runs ---------------------------------------------------------------------------------

  /** After userinit: one process, init, ready to run. */
  ghost predicate Init(s: State) {
    && s.init < |s.procs|
    && forall q: nat :: q < |s.procs| ==>
         s.procs[q] == Proc(if q == s.init then Runnable else Unused, false, None, None, Off, false, false)
  }

  ghost predicate Run(ss: seq<State>, ts: seq<Step>) {
    && |ss| == |ts| + 1 && Init(ss[0])
    && forall i :: 0 <= i < |ts| ==> Enabled(ss[i], ts[i]) && ss[i + 1] == Next(ss[i], ts[i])
  }

  lemma InitInv(s: State)
    requires Init(s)
    ensures Inv(s) && Families(s)
  {
    hide HasChild;
  }

  lemma {:induction false} RunInv(ss: seq<State>, ts: seq<Step>, n: nat)
    requires Run(ss, ts) && n < |ss|
    ensures Inv(ss[n]) && Families(ss[n])
  {
    hide Inv, Families, Enabled, Next;
    if n == 0 {
      InitInv(ss[0]);
    } else {
      RunInv(ss, ts, n - 1);
      StepInv(ss[n - 1], ts[n - 1]);
      StepFamilies(ss[n - 1], ts[n - 1]);
    }
  }

  /** In every run: once a process in exit is past slot i of reparent, no process in a slot
      below i has it as parent; and a zombie or an unused slot is nobody's parent. A process
      asleep in wait has a child; and wait returns without having seen any only to a process
      that has none, unless it is init. */
  lemma RunFamilies(ss: seq<State>, ts: seq<Step>, n: nat, p: nat, c: nat)
    requires Run(ss, ts) && n < |ss| && p < |ss[n].procs| && c < |ss[n].procs|
    ensures var ps := ss[n].procs;
            var P := ps[p];
            && (ps[c].parent == Is(p) && (P.pc.GivesAway? || P.pc.AtOrphan?) ==> c >= P.pc.i)
            && (ps[c].parent == Is(p) ==> P.status != Zombie && P.status != Unused)
            && (P.status == Sleeping && P.self ==> HasChild(ps, p))
            && (n < |ts| && ts[n] == WaitReturn(p) && !P.pc.kids && ps[c].parent == Is(p) ==> p == ss[n].init)
  {
    RunInv(ss, ts, n);
    var ps := ss[n].procs;
    assert Counted(ps, ss[n].init, p) && Fits(ps[p]);
    assert ps[c].parent == Is(p) ==> IsChild(ps, p, c);
    hide Kin, Locks, Checked, HasChild;
  }

  /** Parent p sleeps in wait although child c is a zombie. */
  ghost predicate Misses(s: State, p: nat, c: nat)
    requires p < |s.procs| && c < |s.procs|
  {
    s.procs[c].parent == Is(p) && s.procs[c].status == Zombie && s.procs[p].status == Sleeping && s.procs[p].self
  }

  /** In every run: a parent sleeps in wait past a zombie child only if it is init and the
      child was given to it late; and no process is freed before it is off its CPU for good. */
  lemma RunSafe(ss: seq<State>, ts: seq<Step>, n: nat, p: nat, c: nat)
    requires Run(ss, ts) && n < |ss| && p < |ss[n].procs| && c < |ss[n].procs|
    ensures Misses(ss[n], p, c) ==> p == ss[n].init && ss[n].procs[c].late
    ensures n < |ts| && ts[n].WaitFree? ==> !ss[n].procs[ss[n].procs[ts[n].p].pc.i].onCpu
  {
    RunInv(ss, ts, n);
    if Misses(ss[n], p, c) { NoMissedChild(ss[n], p, c); }
    if n < |ts| && ts[n].WaitFree? { FreedIsOffCpu(ss[n], ts[n].p); }
  }

  // ---- init asleep ---------------------------------------------------------------------------

  ghost predicate Reachable(s: State) {
    exists ss: seq<State>, ts: seq<Step> :: Run(ss, ts) && ss[|ts|] == s
  }

  lemma Then(s: State, t: Step, s': State)
    requires Reachable(s) && Enabled(s, t) && s' == Next(s, t)
    ensures Reachable(s')
  {
    hide Enabled, Next;
    var ss: seq<State>, ts: seq<Step> :| Run(ss, ts) && ss[|ts|] == s;
    assert Run(ss + [s'], ts + [t]) && (ss + [s'])[|ts + [t]|] == s';
  }

  ghost function Three(a: Proc, b: Proc, c: Proc): State { State([a, b, c], 0) }

  ghost function Unborn(): Proc { Proc(Unused, false, None, None, Off, false, false) }

  ghost function Ready(parent: Opt): Proc { Proc(Runnable, false, parent, None, Off, false, false) }

  /** On a CPU, at pc, its lock held by lock. */
  ghost function At(parent: Opt, lock: Opt, pc: Pc, late: bool): Proc {
    Proc(Running, false, parent, lock, pc, true, late)
  }

  ghost function Dead(lock: Opt, onCpu: bool, late: bool): Proc { Proc(Zombie, false, Is(0), lock, Gone, onCpu, late) }

  ghost function Slept(onCpu: bool): Proc {
    Proc(Sleeping, true, None, if onCpu then Is(0) else None, Sleeps, onCpu, false)
  }

  lemma MissStart()
    ensures Reachable(Three(Ready(None), Unborn(), Unborn()))
  {
    var s := Three(Ready(None), Unborn(), Unborn());
    hide Enabled, Next;
    var ss, ts: seq<Step> := [s], [];
    assert Init(ss[0]);
    assert Run(ss, ts) && ss[|ts|] == s;
  }

  /** init (0) forks A (1), A forks B (2), and B, in exit, reads that its parent is A. */
  lemma MissFork()
    ensures Reachable(Three(At(None, None, Idle, false), At(Is(0), None, Idle, false),
                            At(Is(1), None, Leaving(1), false)))
  {
    MissStart();
    hide Reachable;
    var u, i0, a, b := Unborn(), At(None, None, Idle, false), At(Is(0), None, Idle, false),
      At(Is(1), None, Idle, false);
    Then(Three(Ready(None), u, u), Dispatch(0), Three(i0, u, u));
    Then(Three(i0, u, u), Fork(0, 1), Three(i0, Ready(Is(0)), u));
    Then(Three(i0, Ready(Is(0)), u), Dispatch(1), Three(i0, a, u));
    Then(Three(i0, a, u), Fork(1, 2), Three(i0, a, Ready(Is(1))));
    Then(Three(i0, a, Ready(Is(1))), Dispatch(2), Three(i0, a, b));
    Then(Three(i0, a, b), ExitWake(2), Three(i0, a, At(Is(1), None, WokeInit, false)));
    Then(Three(i0, a, At(Is(1), None, WokeInit, false)), ExitStart(2),
         Three(i0, a, At(Is(1), None, Leaving(1), false)));
  }

  /** A exits and gives B to init. */
  lemma MissGive()
    ensures Reachable(Three(At(None, None, Idle, false), Dead(None, false, false), At(Is(0), None, Leaving(1), true)))
  {
    MissFork();
    hide Reachable;
    var i0, i1, b, b' := At(None, None, Idle, false), At(None, Is(1), Idle, false), At(Is(1), None, Leaving(1), false),
                         At(Is(0), None, Leaving(1), true);
    Then(Three(i0, At(Is(0), None, Idle, false), b), ExitWake(1), Three(i0, At(Is(0), None, WokeInit, false), b));
    Then(Three(i0, At(Is(0), None, WokeInit, false), b), ExitStart(1),
         Three(i0, At(Is(0), None, Leaving(0), false), b));
    Then(Three(i0, At(Is(0), None, Leaving(0), false), b), ExitLockParent(1),
         Three(i1, At(Is(0), None, LocksParent(0), false), b));
    Then(Three(i1, At(Is(0), None, LocksParent(0), false), b), ExitLockSelf(1),
         Three(i1, At(Is(0), Is(1), GivesAway(0, 0), false), b));
    Then(Three(i1, At(Is(0), Is(1), GivesAway(0, 0), false), b), ReparentSkip(1),
         Three(i1, At(Is(0), Is(1), GivesAway(0, 1), false), b));
    Then(Three(i1, At(Is(0), Is(1), GivesAway(0, 1), false), b), ReparentSkip(1),
         Three(i1, At(Is(0), Is(1), GivesAway(0, 2), false), b));
    MissGiven(i0, i1, b, b');
  }

  lemma MissGiven(i0: Proc, i1: Proc, b: Proc, b': Proc)
    requires i0 == At(None, None, Idle, false) && i1 == At(None, Is(1), Idle, false) &&
             b == At(Is(1), None, Leaving(1), false)
    requires b' == At(Is(0), None, Leaving(1), true) &&
             Reachable(Three(i1, At(Is(0), Is(1), GivesAway(0, 2), false), b))
    ensures Reachable(Three(i0, Dead(None, false, false), b'))
  {
    hide Reachable;
    var l := At(Is(1), Is(1), Leaving(1), false);
    Then(Three(i1, At(Is(0), Is(1), GivesAway(0, 2), false), b), ReparentLock(1),
         Three(i1, At(Is(0), Is(1), AtOrphan(0, 2), false), l));
    Then(Three(i1, At(Is(0), Is(1), AtOrphan(0, 2), false), l), ReparentSet(1),
         Three(i1, At(Is(0), Is(1), GivesAway(0, 3), false), b'));
    Then(Three(i1, At(Is(0), Is(1), GivesAway(0, 3), false), b'), ExitZombie(1),
         Three(i0, Dead(Is(1), true, false), b'));
    Then(Three(i0, Dead(Is(1), true, false), b'), SwitchOut(1), Three(i0, Dead(None, false, false), b'));
  }

  /** init waits for A, and then again: B is not a zombie yet, so it sleeps. */
  lemma MissWait()
    ensures Reachable(Three(At(None, None, Idle, false), Unborn(), At(Is(0), None, Leaving(1), true)))
  {
    MissGive();
    hide Reachable;
    var a, b := Dead(None, false, false), At(Is(0), None, Leaving(1), true);
    Then(Three(At(None, None, Idle, false), a, b), WaitStart(0), Three(At(None, Is(0), Looks(0, false), false), a, b));
    Then(Three(At(None, Is(0), Looks(0, false), false), a, b), WaitSkip(0),
         Three(At(None, Is(0), Looks(1, false), false), a, b));
    Then(Three(At(None, Is(0), Looks(1, false), false), a, b), WaitLock(0),
         Three(At(None, Is(0), AtChild(1, true), false), Dead(Is(0), false, false), b));
    Then(Three(At(None, Is(0), AtChild(1, true), false), Dead(Is(0), false, false), b), WaitFree(0),
         Three(At(None, None, Idle, false), Unborn(), b));
  }

  lemma MissSleep()
    ensures Reachable(Three(Slept(false), Unborn(), At(Is(0), None, Leaving(1), true)))
  {
    MissWait();
    hide Reachable;
    var u, b := Unborn(), At(Is(0), None, Leaving(1), true);
    Then(Three(At(None, None, Idle, false), u, b), WaitStart(0), Three(At(None, Is(0), Looks(0, false), false), u, b));
    Then(Three(At(None, Is(0), Looks(0, false), false), u, b), WaitSkip(0),
         Three(At(None, Is(0), Looks(1, false), false), u, b));
    Then(Three(At(None, Is(0), Looks(1, false), false), u, b), WaitSkip(0),
         Three(At(None, Is(0), Looks(2, false), false), u, b));
    MissSlept(u, b);
  }

  lemma MissSlept(u: Proc, b: Proc)
    requires u == Unborn() && b == At(Is(0), None, Leaving(1), true)
    requires Reachable(Three(At(None, Is(0), Looks(2, false), false), u, b))
    ensures Reachable(Three(Slept(false), u, b))
  {
    hide Reachable;
    Then(Three(At(None, Is(0), Looks(2, false), false), u, b), WaitLock(0),
         Three(At(None, Is(0), AtChild(2, true), false), u, At(Is(0), Is(0), Leaving(1), true)));
    Then(Three(At(None, Is(0), AtChild(2, true), false), u, At(Is(0), Is(0), Leaving(1), true)), WaitPass(0),
         Three(At(None, Is(0), Looks(3, true), false), u, b));
    Then(Three(At(None, Is(0), Looks(3, true), false), u, b), WaitSleep(0), Three(Slept(true), u, b));
    Then(Three(Slept(true), u, b), SwitchOut(0), Three(Slept(false), u, b));
  }

  /** B goes on, with the lock of A, which is gone. */
  lemma MissLock()
    ensures Reachable(Three(Slept(false), Proc(Unused, false, None, Is(2), Off, false, false),
                            At(Is(0), None, LocksParent(1), true)))
  {
    MissSleep();
    hide Reachable;
    var i0, u, v := Slept(false), Unborn(), Proc(Unused, false, None, Is(2), Off, false, false);
    Then(Three(i0, u, At(Is(0), None, Leaving(1), true)), ExitLockParent(2),
         Three(i0, v, At(Is(0), None, LocksParent(1), true)));
  }

  lemma MissScan()
    ensures Reachable(Three(Slept(false), Proc(Unused, false, None, Is(2), Off, false, false),
                            At(Is(0), Is(2), GivesAway(1, 1), true)))
  {
    MissLock();
    hide Reachable;
    var i0, v := Slept(false), Proc(Unused, false, None, Is(2), Off, false, false);
    Then(Three(i0, v, At(Is(0), None, LocksParent(1), true)), ExitLockSelf(2),
         Three(i0, v, At(Is(0), Is(2), GivesAway(1, 0), true)));
    Then(Three(i0, v, At(Is(0), Is(2), GivesAway(1, 0), true)), ReparentSkip(2),
         Three(i0, v, At(Is(0), Is(2), GivesAway(1, 1), true)));
  }

  /** It wakes A and becomes a zombie. */
  lemma MissWake()
    ensures Reachable(Three(Slept(false), Unborn(), Dead(Is(2), true, true)))
  {
    MissScan();
    hide Reachable;
    var i0, v := Slept(false), Proc(Unused, false, None, Is(2), Off, false, false);
    Then(Three(i0, v, At(Is(0), Is(2), GivesAway(1, 1), true)), ReparentSkip(2),
         Three(i0, v, At(Is(0), Is(2), GivesAway(1, 2), true)));
    Then(Three(i0, v, At(Is(0), Is(2), GivesAway(1, 2), true)), ReparentSkip(2),
         Three(i0, v, At(Is(0), Is(2), GivesAway(1, 3), true)));
    Then(Three(i0, v, At(Is(0), Is(2), GivesAway(1, 3), true)), ExitZombie(2),
         Three(i0, Unborn(), Dead(Is(2), true, true)));
  }

  /** So there is a run after which init sleeps past a zombie child. */
  lemma InitMisses()
    ensures exists s, c: nat :: Reachable(s) && s.init < |s.procs| && c < |s.procs| && Misses(s, s.init, c)
  {
    MissWake();
    hide Reachable;
    var s := Three(Slept(false), Unborn(), Dead(Is(2), true, true));
    assert Misses(s, s.init, 2);
  }
}
