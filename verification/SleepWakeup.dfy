/** sleep and wakeup (kernel/proc.c:485-500, 565-611): every interleaving of processes that
    sleep on channel c under its lock, and processes that wake up channel c holding that lock,
    down to single lock operations. Channels may share a lock, as pi->nread and pi->nwrite do
    (kernel/pipe.c:90-91): a process can wake one and go on to sleep on another without letting
    the lock go. sleep(p, &p->lock), which wait uses, is another protocol. */
module SleepWakeup {

  datatype Opt = None | Is(p: nat)

  datatype Status = Ready | Sleeping | Runnable

  /** Has(l): holds lock l. Both(c): in sleep, holds the lock of channel c and its own. Dropped(c):
      has let the channel's lock go. Switching(c): is marked as sleeping, and about to leave the CPU. Off(c):
      off the CPU, until woken and dispatched. Back(c): runs again, its own lock still held.
      Wants(c): waits for the channel's lock. Scans(c, i): in wakeup, holds it, slot i is next.
      At(c, i): and holds the lock of slot i. */
  datatype Pc =
    | Idle | Has(l: nat) | Both(c: nat) | Dropped(c: nat) | Switching(c: nat)
    | Off(c: nat) | Back(c: nat) | Wants(c: nat)
    | Scans(c: nat, i: nat) | At(c: nat, i: nat)

  datatype Proc = Proc(status: Status, chan: Opt, lock: Opt, pc: Pc)

  /** lk: who holds each lock. of: the lock of each channel. */
  datatype State = State(procs: seq<Proc>, lk: seq<Opt>, of: seq<nat>)

  datatype Step =
    | Acquire(p: nat, l: nat) | Release(p: nat)
    | SleepLock(p: nat, c: nat) | SleepDrop(p: nat) | SleepMark(p: nat) | SwitchOut(p: nat)
    | Dispatch(p: nat) | Resume(p: nat) | Reacquire(p: nat)
    | WakeStart(p: nat, c: nat) | WakeLock(p: nat) | WakeTest(p: nat) | WakeEnd(p: nat)
    | Kill(p: nat)

  /** Lock l is the lock of channel c. */
  ghost predicate LockOf(s: State, c: nat, l: nat) {
    c < |s.of| && s.of[c] == l < |s.lk|
  }

  ghost predicate Enabled(s: State, t: Step) {
    var n := |s.procs|;
    t.p < n &&
    var P := s.procs[t.p];
    match t
    case Acquire(_, l) => P.pc == Idle && l < |s.lk| && s.lk[l] == None
    case Release(_) => P.pc.Has? && P.pc.l < |s.lk|
    case SleepLock(_, c) => P.pc.Has? && LockOf(s, c, P.pc.l) && P.lock == None
    case SleepDrop(_) => P.pc.Both? && P.pc.c < |s.of| && s.of[P.pc.c] < |s.lk|
    case SleepMark(_) => P.pc.Dropped?
    case SwitchOut(_) => P.pc.Switching?
    case Dispatch(_) => P.pc.Off? && P.status == Runnable && P.lock == None
    case Resume(_) => P.pc.Back?
    case Reacquire(_) => P.pc.Wants? && P.pc.c < |s.of| && s.of[P.pc.c] < |s.lk| && s.lk[s.of[P.pc.c]] == None
    case WakeStart(_, c) => P.pc.Has? && LockOf(s, c, P.pc.l)
    case WakeLock(_) => P.pc.Scans? && P.pc.i < n && s.procs[P.pc.i].lock == None
    case WakeTest(_) => P.pc.At? && P.pc.i < n
    case WakeEnd(_) => P.pc.Scans? && P.pc.i == n && P.pc.c < |s.of|
    case Kill(_) => P.lock == None && P.status == Sleeping
  }

  /** The test of wakeup's loop. */
  ghost function Woken(P: Proc, c: nat): Proc {
    if P.status == Sleeping && P.chan == Is(c) then Proc(Runnable, P.chan, P.lock, P.pc) else P
  }

  ghost function WithLock(P: Proc, lock: Opt): Proc { Proc(P.status, P.chan, lock, P.pc) }

  ghost function Moved(P: Proc, lock: Opt, pc: Pc): Proc { Proc(P.status, P.chan, lock, pc) }

  ghost function Next(s: State, t: Step): State
    requires Enabled(s, t)
  {
    var ps, p, lk, of := s.procs, t.p, s.lk, s.of;
    var P := ps[p];
    match t
    case Acquire(_, l) => State(ps[p := Moved(P, P.lock, Has(l))], lk[l := Is(p)], of)
    case Release(_) => State(ps[p := Moved(P, P.lock, Idle)], lk[P.pc.l := None], of)
    case SleepLock(_, c) => State(ps[p := Moved(P, Is(p), Both(c))], lk, of)
    case SleepDrop(_) => State(ps[p := Moved(P, P.lock, Dropped(P.pc.c))], lk[of[P.pc.c] := None], of)
    case SleepMark(_) => State(ps[p := Proc(Sleeping, Is(P.pc.c), P.lock, Switching(P.pc.c))], lk, of)
    case SwitchOut(_) => State(ps[p := Moved(P, None, Off(P.pc.c))], lk, of)
    case Dispatch(_) => State(ps[p := Proc(Ready, P.chan, Is(p), Back(P.pc.c))], lk, of)
    case Resume(_) => State(ps[p := Proc(P.status, None, None, Wants(P.pc.c))], lk, of)
    case Reacquire(_) => State(ps[p := Moved(P, P.lock, Has(of[P.pc.c]))], lk[of[P.pc.c] := Is(p)], of)
    case WakeStart(_, c) => State(ps[p := Moved(P, P.lock, Scans(c, 0))], lk, of)
    case WakeLock(_) =>
      var ps1 := ps[P.pc.i := WithLock(ps[P.pc.i], Is(p))];
      State(ps1[p := Moved(ps1[p], ps1[p].lock, At(P.pc.c, P.pc.i))], lk, of)
    case WakeTest(_) =>
      var ps1 := ps[P.pc.i := WithLock(Woken(ps[P.pc.i], P.pc.c), None)];
      State(ps1[p := Moved(ps1[p], ps1[p].lock, Scans(P.pc.c, P.pc.i + 1))], lk, of)
    case WakeEnd(_) => State(ps[p := Moved(P, P.lock, Has(of[P.pc.c]))], lk, of)
    case Kill(_) => State(ps[p := Proc(Runnable, P.chan, P.lock, P.pc)], lk, of)
  }

  // ---- the invariant --------------------------------------------------------------------

  ghost predicate Holds(P: Proc, q: nat, x: nat) {
    match P.pc
    case Both(_) => x == q
    case Dropped(_) => x == q
    case Switching(_) => x == q
    case Back(_) => x == q
    case At(_, i) => x == i
    case _ => false
  }

  ghost predicate HoldsLk(of: seq<nat>, P: Proc, l: nat) {
    match P.pc
    case Has(d) => l == d
    case Both(c) => c < |of| && l == of[c]
    case Scans(c, _) => c < |of| && l == of[c]
    case At(c, _) => c < |of| && l == of[c]
    case _ => false
  }

  ghost predicate LockOk(ps: seq<Proc>, x: nat, q: nat)
    requires x < |ps| && q < |ps|
  {
    ps[x].lock == Is(q) <==> Holds(ps[q], q, x)
  }

  ghost predicate LkOk(s: State, l: nat, q: nat)
    requires l < |s.lk| && q < |s.procs|
  {
    s.lk[l] == Is(q) <==> HoldsLk(s.of, s.procs[q], l)
  }

  /** The fields of one process fit together. */
  ghost predicate Fits(s: State, P: Proc) {
    && (match P.pc
        case Switching(c) => P.status == Sleeping && P.chan == Is(c)
        case Off(c) => P.status != Ready && P.chan == Is(c)
        case Back(c) => P.status == Ready && P.chan == Is(c)
        case _ => P.status == Ready && P.chan == None)
    && (match P.pc case Idle => true case Has(l) => l < |s.lk| case _ => P.pc.c < |s.of| && s.of[P.pc.c] < |s.lk|)
    && (P.pc.At? ==> P.pc.i < |s.procs|)
  }

  /** P has let the lock of channel c go in sleep, and has not been woken since. */
  ghost predicate Bound(P: Proc, c: nat) {
    match P.pc
    case Dropped(d) => d == c
    case Switching(d) => d == c
    case Off(d) => d == c && P.status == Sleeping
    case _ => false
  }

  ghost predicate NoneBound(ps: seq<Proc>, c: nat, n: nat) {
    forall q: nat :: q < n && q < |ps| ==> !Bound(ps[q], c)
  }

  /** A wakeup in progress has left nobody behind. */
  ghost predicate Scanned(s: State, P: Proc) {
    match P.pc
    case Scans(c, i) => NoneBound(s.procs, c, i)
    case At(c, i) => NoneBound(s.procs, c, i)
    case _ => true
  }

  ghost predicate Inv(s: State) {
    && (forall x: nat, q: nat :: x < |s.procs| && q < |s.procs| ==> LockOk(s.procs, x, q))
    && (forall l: nat, q: nat :: l < |s.lk| && q < |s.procs| ==> LkOk(s, l, q))
    && (forall q: nat :: q < |s.procs| ==> Fits(s, s.procs[q]))
    && (forall q: nat :: q < |s.procs| ==> Scanned(s, s.procs[q]))
  }

  /** No lost wakeup: when a wakeup of channel c made under its lock ends, no process that
      let that lock go in sleep is still asleep, or about to sleep, on c. */
  lemma NoLostWakeup(s: State, p: nat, q: nat)
    requires Inv(s) && Enabled(s, WakeEnd(p)) && q < |s.procs|
    ensures !Bound(s.procs[q], s.procs[p].pc.c)
  {
    assert Scanned(s, s.procs[p]);
  }

  // ---- each step keeps it -----------------------------------------------------------------

  ghost function Touched(s: State, t: Step): nat
    requires Enabled(s, t)
  {
    if t.WakeLock? || t.WakeTest? then s.procs[t.p].pc.i else t.p
  }

  lemma Sizes(s: State, t: Step)
    requires Enabled(s, t)
    ensures t.p < |s.procs| && Touched(s, t) < |s.procs| == |Next(s, t).procs|
    ensures |Next(s, t).lk| == |s.lk| && Next(s, t).of == s.of
  {
  }

  ghost predicate LocksAround(ps: seq<Proc>, x: nat, q: nat, p: nat, y: nat)
    requires x < |ps| && q < |ps| && p < |ps| && y < |ps|
  {
    && LockOk(ps, x, q) && LockOk(ps, x, p) && LockOk(ps, p, q) && LockOk(ps, p, p)
    && LockOk(ps, y, q) && LockOk(ps, y, p) && LockOk(ps, x, y) && LockOk(ps, y, y)
  }

  lemma LockStepAt(s: State, t: Step, x: nat, q: nat)
    requires Enabled(s, t) && x < |s.procs| && q < |s.procs| && Touched(s, t) < |s.procs| == |Next(s, t).procs|
    requires LocksAround(s.procs, x, q, t.p, Touched(s, t)) && Fits(s, s.procs[t.p])
    ensures LockOk(Next(s, t).procs, x, q)
  {
  }

  /** The lock that a process holds or is about to take. */
  ghost function LockOfPc(s: State, pc: Pc): nat {
    match pc
    case Idle => 0
    case Has(l) => l
    case _ => if pc.c < |s.of| then s.of[pc.c] else 0
  }

  lemma LkStepAt(s: State, t: Step, l: nat, q: nat)
    requires Enabled(s, t) && l < |s.lk| && q < |s.procs| && Fits(s, s.procs[t.p])
    requires LkOk(s, l, q) && LkOk(s, l, t.p)
    requires var m := LockOfPc(s, s.procs[t.p].pc); m < |s.lk| ==> LkOk(s, m, t.p)
    ensures |Next(s, t).lk| == |s.lk| && |Next(s, t).procs| == |s.procs| && LkOk(Next(s, t), l, q)
  {
  }

  lemma FitsStepAt(s: State, t: Step, q: nat)
    requires Enabled(s, t) && q < |s.procs| && Fits(s, s.procs[q]) && Fits(s, s.procs[t.p])
    requires LockOk(s.procs, q, q) && LockOk(s.procs, q, t.p)
    ensures |Next(s, t).lk| == |s.lk| && |Next(s, t).procs| == |s.procs| && Fits(Next(s, t), Next(s, t).procs[q])
  {
  }

  /** A process becomes bound to c only by letting the lock of c go. */
  lemma BoundStep(s: State, t: Step, q: nat, c: nat)
    requires Enabled(s, t) && q < |s.procs|
    ensures |Next(s, t).procs| == |s.procs|
    ensures Bound(Next(s, t).procs[q], c) && !Bound(s.procs[q], c) ==>
              q == t.p && s.procs[q].pc.Both? && c < |s.of| && HoldsLk(s.of, s.procs[q], s.of[c])
  {
  }

  /** The slot that wakeup has just tested is not bound: its lock was held, so its process
      was not on the way to sleep, and if it slept it was woken. */
  lemma TestedNotBound(s: State, t: Step)
    requires Enabled(s, t) && t.WakeTest? && Fits(s, s.procs[t.p]) && Fits(s, s.procs[Touched(s, t)])
    requires LockOk(s.procs, Touched(s, t), t.p) && LockOk(s.procs, Touched(s, t), Touched(s, t))
    ensures |Next(s, t).procs| == |s.procs| && !Bound(Next(s, t).procs[Touched(s, t)], s.procs[t.p].pc.c)
  {
  }

  lemma NoneBoundStep(s: State, t: Step, q: nat, c: nat, n: nat)
    requires Enabled(s, t) && q < |s.procs| && c < |s.of| && s.of[c] < |s.lk| && NoneBound(s.procs, c, n)
    requires HoldsLk(s.of, s.procs[q], s.of[c]) && LkOk(s, s.of[c], q) && LkOk(s, s.of[c], t.p)
    requires q == t.p ==> !s.procs[q].pc.Both?
    ensures NoneBound(Next(s, t).procs, c, n)
  {
    Sizes(s, t);
    forall x: nat | x < n && x < |s.procs| ensures !Bound(Next(s, t).procs[x], c) {
      BoundStep(s, t, x, c);
    }
  }

  lemma PcStep(s: State, t: Step, q: nat)
    requires Enabled(s, t) && q < |s.procs|
    ensures |Next(s, t).procs| == |s.procs|
    ensures q != t.p ==> Next(s, t).procs[q].pc == s.procs[q].pc
    ensures Next(s, t).procs[t.p].pc.Scans? ==>
              || Next(s, t).procs[t.p].pc.i == 0
              || (s.procs[t.p].pc.Scans? && Next(s, t).procs[t.p].pc == s.procs[t.p].pc)
              || (t.WakeTest? && Next(s, t).procs[t.p].pc == Scans(s.procs[t.p].pc.c, s.procs[t.p].pc.i + 1))
    ensures Next(s, t).procs[t.p].pc.At? ==>
              || Next(s, t).procs[t.p].pc == s.procs[t.p].pc
              || (s.procs[t.p].pc.Scans? && Next(s, t).procs[t.p].pc == At(s.procs[t.p].pc.c, s.procs[t.p].pc.i))
  {
  }

  lemma ScannedStep(s: State, t: Step, q: nat)
    requires Inv(s) && Enabled(s, t) && q < |s.procs|
    ensures |Next(s, t).procs| == |s.procs| && Scanned(Next(s, t), Next(s, t).procs[q])
  {
    Sizes(s, t);
    PcStep(s, t, q);
    hide Enabled, Next, Touched, LockOk;
    var P := s.procs[q];
    assert Fits(s, P) && Scanned(s, P);
    if P.pc.Scans? || P.pc.At? {
      assert LkOk(s, s.of[P.pc.c], q) && LkOk(s, s.of[P.pc.c], t.p);
      NoneBoundStep(s, t, q, P.pc.c, P.pc.i);
      if q == t.p && t.WakeTest? {
        assert Fits(s, s.procs[Touched(s, t)]);
        TestedNotBound(s, t);
        SlotTested(s, t);
      }
    }
    hide LkOk, Fits, Bound, HoldsLk;
  }

  lemma SlotTested(s: State, t: Step)
    requires Enabled(s, t) && t.WakeTest?
    ensures s.procs[t.p].pc.At? && Touched(s, t) == s.procs[t.p].pc.i
  {
  }

  lemma LockStep(s: State, t: Step, x: nat, q: nat)
    requires Inv(s) && Enabled(s, t) && x < |s.procs| && q < |s.procs|
    ensures |Next(s, t).procs| == |s.procs| && LockOk(Next(s, t).procs, x, q)
  {
    Sizes(s, t);
    hide Enabled, Next, Touched, LockOk, Fits;
    LockStepAt(s, t, x, q);
  }

  /** Every step keeps the invariant. */
  lemma StepInv(s: State, t: Step)
    requires Inv(s) && Enabled(s, t)
    ensures Inv(Next(s, t))
  {
    Sizes(s, t);
    hide Enabled, Next, Touched, LockOk, LkOk, Fits, Scanned;
    forall x: nat, q: nat | x < |s.procs| && q < |s.procs| ensures LockOk(Next(s, t).procs, x, q) {
      LockStep(s, t, x, q);
    }
    forall l: nat, q: nat | l < |s.lk| && q < |s.procs| ensures LkOk(Next(s, t), l, q) {
      LkStepAt(s, t, l, q);
    }
    forall q: nat | q < |s.procs|
      ensures Fits(Next(s, t), Next(s, t).procs[q]) && Scanned(Next(s, t), Next(s, t).procs[q]) {
      FitsStepAt(s, t, q);
      ScannedStep(s, t, q);
    }
  }

  ghost predicate AsleepOn(P: Proc, d: nat) { P.status == Sleeping && P.chan == Is(d) }

  /** A sleep on channel d ends only when the process is killed, or when a wakeup of d, and of
      no other channel, comes to its slot; any other wakeup leaves it as it was. */
  lemma WhoWakes(s: State, t: Step, q: nat, d: nat)
    requires Inv(s) && Enabled(s, t) && q < |s.procs| && AsleepOn(s.procs[q], d)
    ensures |Next(s, t).procs| == |s.procs|
    ensures AsleepOn(Next(s, t).procs[q], d) <==> !(t == Kill(q) || (t.WakeTest? && s.procs[t.p].pc == At(d, q)))
    ensures t.WakeTest? && s.procs[t.p].pc.c != d ==>
              Next(s, t).procs[q].pc == s.procs[q].pc && AsleepOn(Next(s, t).procs[q], d)
    ensures !AsleepOn(Next(s, t).procs[q], d) ==> Next(s, t).procs[q].status == Runnable
  {
    assert Fits(s, s.procs[q]) && Fits(s, s.procs[t.p]);
    hide LockOk, LkOk, Scanned;
  }

  /** sleep lets its lock go only once it holds the process's own, and returns with it held. */
  lemma SleepKeepsLocked(s: State, t: Step, q: nat)
    requires Inv(s) && Enabled(s, t) && q < |s.procs| == |Next(s, t).procs| && Next(s, t).of == s.of
    ensures s.procs[q].pc.Both? && !Next(s, t).procs[q].pc.Both? ==> Next(s, t).procs[q].lock == Is(q)
    ensures s.procs[q].pc.Wants? && !Next(s, t).procs[q].pc.Wants? ==>
              var l := s.of[s.procs[q].pc.c]; l < |Next(s, t).lk| && Next(s, t).lk[l] == Is(q)
  {
    assert Fits(s, s.procs[q]) && Fits(s, s.procs[t.p]) && LockOk(s.procs, q, q);
    hide LkOk, Scanned;
  }

  // ---- runs ------------------------------------------------------------------------------

  ghost predicate Init(s: State) {
    && (forall q: nat :: q < |s.procs| ==> s.procs[q] == Proc(Ready, None, None, Idle))
    && (forall l: nat :: l < |s.lk| ==> s.lk[l] == None)
    && (forall c: nat :: c < |s.of| ==> s.of[c] < |s.lk|)
  }

  ghost predicate Run(ss: seq<State>, ts: seq<Step>) {
    && |ss| == |ts| + 1 && Init(ss[0])
    && forall i :: 0 <= i < |ts| ==> Enabled(ss[i], ts[i]) && ss[i + 1] == Next(ss[i], ts[i])
  }

  lemma {:induction false} RunInv(ss: seq<State>, ts: seq<Step>, n: nat)
    requires Run(ss, ts) && n < |ss|
    ensures Inv(ss[n])
  {
    if n > 0 {
      RunInv(ss, ts, n - 1);
      hide Inv, Enabled, Next;
      StepInv(ss[n - 1], ts[n - 1]);
    }
  }

  /** In every run, whoever let the lock of channel c go in sleep before some wakeup of c
      under that lock ends has been woken by then: it is runnable, or running again. */
  lemma EverySleeperWoken(ss: seq<State>, ts: seq<Step>, n: nat, q: nat)
    requires Run(ss, ts) && n < |ts| && ts[n].WakeEnd? && q < |ss[n].procs|
    ensures ss[n].procs[ts[n].p].pc.Scans?
    ensures !Bound(ss[n].procs[q], ss[n].procs[ts[n].p].pc.c)
    ensures ss[n].procs[q].pc == Off(ss[n].procs[ts[n].p].pc.c) ==> ss[n].procs[q].status == Runnable
  {
    RunInv(ss, ts, n);
    NoLostWakeup(ss[n], ts[n].p, q);
    assert Fits(ss[n], ss[n].procs[q]);
  }
}
