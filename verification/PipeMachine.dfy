/** All runs of readers and writers on one pipe: each stretch under pi->lock is one step
    (kernel/pipe.c:58-127). */
module PipeMachine {
  import opened Blocks
  import opened Pipe

  datatype Proc =
    | Writer(src: seq<Byte>, i: nat, asleep: bool)
    | Reader(n: nat, asleep: bool)

  type Procs = map<nat, Proc>

  /** put and taken as in the ring; procs are the processes inside pipewrite or piperead. */
  datatype State = State(put: seq<Byte>, taken: nat, readopen: bool, writeopen: bool, procs: Procs)

  datatype Step =
    | StartWrite(p: nat, src: seq<Byte>)
    | StartRead(p: nat, n: nat)
    | RunWriter(p: nat, f: nat, killed: bool, j: nat, o: Outcome)
    | RunReader(p: nat, f: nat, killed: bool, bytes: seq<Byte>, o: Outcome)
    | Close(writable: bool)
    | Kill(p: nat)

  ghost function WakeReaders(procs: Procs): (r: Procs)
    ensures r.Keys == procs.Keys
  {
    map p | p in procs :: match procs[p] case Reader(n, _) => Reader(n, false) case Writer(_, _, _) => procs[p]
  }

  ghost function WakeWriters(procs: Procs): (r: Procs)
    ensures r.Keys == procs.Keys
  {
    map p | p in procs :: match procs[p] case Writer(src, i, _) => Writer(src, i, false) case Reader(_, _) => procs[p]
  }

  /** An end is closed when its last file reference goes, so nobody is using it. */
  ghost predicate Enabled(s: State, t: Step) {
    match t
    case StartWrite(p, _) => p !in s.procs && s.writeopen
    case StartRead(p, _) => p !in s.procs && s.readopen
    case RunWriter(p, f, killed, j, o) =>
      && p in s.procs && s.procs[p].Writer? && !s.procs[p].asleep && s.procs[p].i <= j <= |s.procs[p].src|
      && Wrote(s.put, s.taken, s.readopen, s.procs[p].src, s.procs[p].i, f, killed,
               s.put + s.procs[p].src[s.procs[p].i..j], j, o)
    case RunReader(p, f, killed, bytes, o) =>
      && p in s.procs && s.procs[p].Reader? && !s.procs[p].asleep
      && Took(s.put, s.taken, s.writeopen, s.procs[p].n, f, killed, s.taken + |bytes|, bytes, o)
    case Close(true) => s.writeopen && forall p :: p in s.procs ==> !s.procs[p].Writer?
    case Close(false) => s.readopen && forall p :: p in s.procs ==> !s.procs[p].Reader?
    case Kill(p) => p in s.procs
  }

  ghost function Next(s: State, t: Step): State
    requires Enabled(s, t)
  {
    match t
    case StartWrite(p, src) => s.(procs := s.procs[p := Writer(src, 0, false)])
    case StartRead(p, n) => s.(procs := s.procs[p := Reader(n, false)])
    case RunWriter(p, _, _, j, o) =>
      var w := s.procs[p];
      var procs := match o
        case Done => WakeReaders(s.procs - {p})
        case Blocked => WakeReaders(s.procs)[p := Writer(w.src, j, true)]
        case Refused => s.procs - {p};
      s.(put := s.put + w.src[w.i..j], procs := procs)
    case RunReader(p, _, _, bytes, o) =>
      var procs := match o
        case Done => WakeWriters(s.procs - {p})
        case Blocked => s.procs[p := Reader(s.procs[p].n, true)]
        case Refused => s.procs - {p};
      s.(taken := s.taken + |bytes|, procs := procs)
    case Close(true) => s.(writeopen := false, procs := WakeReaders(s.procs))
    case Close(false) => s.(readopen := false, procs := WakeWriters(s.procs))
    case Kill(p) =>
      s.(procs := s.procs[p := match s.procs[p] case Writer(src, i, _) => Writer(src, i, false) case Reader(n,
        _) => Reader(n, false)])
  }

  ghost predicate Init(s: State) {
    s == State([], 0, true, true, map[])
  }

  /** A sleeping writer means a full pipe with an open read end; a sleeping reader means an
      empty one with an open write end. */
  ghost predicate ProcOk(s: State, q: Proc) {
    match q
    case Writer(src, i, asleep) => i <= |src| && s.writeopen && (asleep ==> |s.put| == s.taken + PIPESIZE && s.readopen)
    case Reader(_, asleep) => s.readopen && (asleep ==> |s.put| == s.taken && s.writeopen)
  }

  ghost predicate Inv(s: State) {
    && s.taken <= |s.put| <= s.taken + PIPESIZE
    && forall p :: p in s.procs ==> ProcOk(s, s.procs[p])
  }

  ghost predicate ReaderAsleep(s: State) {
    exists p :: p in s.procs && s.procs[p].Reader? && s.procs[p].asleep
  }

  /** A killed writer leaves after putting bytes, past a sleeping reader that nobody wakes. */
  ghost predicate Strands(s: State, t: Step) {
    t.RunWriter? && t.o.Refused? && t.p in s.procs && s.procs[t.p].Writer? && t.j > s.procs[t.p].i && ReaderAsleep(s)
  }

  /** Every step but that one keeps the invariant; that one always breaks it. */
  lemma StepInv(s: State, t: Step)
    requires Inv(s) && Enabled(s, t)
    ensures Inv(Next(s, t)) <==> !Strands(s, t)
  {
    if Strands(s, t) {
      var p :| p in s.procs && s.procs[p].Reader? && s.procs[p].asleep;
      assert p in Next(s, t).procs && Next(s, t).procs[p] == s.procs[p];
    } else {
      forall p | p in Next(s, t).procs ensures ProcOk(Next(s, t), Next(s, t).procs[p]) {
        ProcStep(s, t, p);
      }
    }
  }

  lemma ProcStep(s: State, t: Step, p: nat)
    requires Inv(s) && Enabled(s, t) && !Strands(s, t) && p in Next(s, t).procs
    ensures ProcOk(Next(s, t), Next(s, t).procs[p])
  {
    if p in s.procs { assert ProcOk(s, s.procs[p]); }
    if t.RunWriter? || t.RunReader? { assert ProcOk(s, s.procs[t.p]); }
    if t.RunWriter? && t.o.Refused? && t.j > s.procs[t.p].i && p in s.procs {
      assert !(s.procs[p].Reader? && s.procs[p].asleep);
    }
  }

  /** A sleeping process goes on if and only if it is killed, or the other side ends or blocks
      (a reader that blocks has taken nothing), or the other end is closed. Nobody else wakes it. */
  lemma WhoWakes(s: State, t: Step, p: nat)
    requires Enabled(s, t) && p in s.procs && s.procs[p].asleep
    ensures p in Next(s, t).procs
    ensures Next(s, t).procs[p] == s.procs[p] || Next(s, t).procs[p] == s.procs[p].(asleep := false)
    ensures !Next(s, t).procs[p].asleep <==>
              || t == Kill(p)
              || (s.procs[p].Reader? && ((t.RunWriter? && !t.o.Refused?) || t == Close(true)))
              || (s.procs[p].Writer? && ((t.RunReader? && t.o.Done?) || t == Close(false)))
  {
  }

  // ---- runs -----------------------------------------------------------------------

  ghost predicate Run(ss: seq<State>, ts: seq<Step>) {
    && |ss| == |ts| + 1 && Init(ss[0])
    && forall i :: 0 <= i < |ts| ==> Enabled(ss[i], ts[i]) && ss[i + 1] == Next(ss[i], ts[i])
  }

  lemma {:induction false} RunInv(ss: seq<State>, ts: seq<Step>, n: nat)
    requires Run(ss, ts) && n < |ss|
    requires forall i :: 0 <= i < |ts| ==> !Strands(ss[i], ts[i])
    ensures Inv(ss[n])
  {
    if n > 0 {
      RunInv(ss, ts, n - 1);
      StepInv(ss[n - 1], ts[n - 1]);
    }
  }

  /** All bytes that pipewrite calls put in the first n steps, in order. */
  ghost function Sent(ss: seq<State>, ts: seq<Step>, n: nat): seq<Byte>
    requires Run(ss, ts) && n <= |ts|
  {
    if n == 0 then []
    else
      var s, t := ss[n - 1], ts[n - 1];
      Sent(ss, ts, n - 1) + (if t.RunWriter? then s.procs[t.p].src[s.procs[t.p].i..t.j] else [])
  }

  /** All bytes that piperead calls took, in order. */
  ghost function Received(ts: seq<Step>, n: nat): seq<Byte>
    requires n <= |ts|
  {
    if n == 0 then [] else Received(ts, n - 1) + (if ts[n - 1].RunReader? then ts[n - 1].bytes else [])
  }

  lemma StepBytes(s: State, t: Step)
    requires Enabled(s, t) && s.taken <= |s.put|
    ensures var s' := Next(s, t);
            && s'.taken <= |s'.put|
            && s'.put == s.put + (if t.RunWriter? then s.procs[t.p].src[s.procs[t.p].i..t.j] else [])
            && s'.put[..s'.taken] == s.put[..s.taken] + (if t.RunReader? then t.bytes else [])
  {
  }

  lemma Parts(put: seq<Byte>, taken: nat)
    requires taken <= |put|
    ensures put == put[..taken] + Queue(put, taken)
  {
  }

  /** First in, first out, in every run: the bytes received and the bytes still in the pipe
      are the bytes sent, in order, with none lost, added or duplicated. */
  lemma {:induction false} Fifo(ss: seq<State>, ts: seq<Step>, n: nat)
    requires Run(ss, ts) && n <= |ts|
    ensures ss[n].taken <= |ss[n].put|
    ensures Sent(ss, ts, n) == Received(ts, n) + Queue(ss[n].put, ss[n].taken)
    ensures ss[n].put == Sent(ss, ts, n) && ss[n].put[..ss[n].taken] == Received(ts, n)
  {
    if n > 0 {
      Fifo(ss, ts, n - 1);
      StepBytes(ss[n - 1], ts[n - 1]);
    }
    hide Next, Enabled, Queue;
    Parts(ss[n].put, ss[n].taken);
  }

  /** With no such exit, a sleeping reader misses nothing: every byte sent has been received. */
  lemma SleepingReaderMissesNothing(ss: seq<State>, ts: seq<Step>, n: nat)
    requires Run(ss, ts) && n <= |ts| && ReaderAsleep(ss[n])
    requires forall i :: 0 <= i < |ts| ==> !Strands(ss[i], ts[i])
    ensures Sent(ss, ts, n) == Received(ts, n) && ss[n].writeopen
  {
    RunInv(ss, ts, n);
    Fifo(ss, ts, n);
    var p :| p in ss[n].procs && ss[n].procs[p].Reader? && ss[n].procs[p].asleep;
    assert ProcOk(ss[n], ss[n].procs[p]);
  }

  // ---- the exit without a wakeup ------------------------------------------------------

  /** It happens: a reader waits, a writer of 513 bytes fills the pipe and is found killed at
      the full pipe; it leaves 512 bytes and a reader that sleeps on. */
  lemma KilledWriterStrandsReader() returns (ss: seq<State>, ts: seq<Step>)
    ensures Run(ss, ts) && |ts| == 4
    ensures ReaderAsleep(ss[4]) && |ss[4].put| == ss[4].taken + PIPESIZE
  {
    var src: seq<Byte> := seq(PIPESIZE + 1, _ => 7);
    ts := [StartRead(1, 1), RunReader(1, 1, false, [], Blocked), StartWrite(2, src),
           RunWriter(2, PIPESIZE + 2, true, PIPESIZE, Refused)];
    var s0 := State([], 0, true, true, map[]);
    var s1 := Next(s0, ts[0]);
    var s2 := Next(s1, ts[1]);
    var s3 := Next(s2, ts[2]);
    assert Enabled(s3, ts[3]) by {
      assert s3.procs[2] == Writer(src, 0, false);
      assert |src[0..PIPESIZE]| == PIPESIZE;
      assert s3.put == [] && [] + src[0..PIPESIZE] == src[0..PIPESIZE];
    }
    var s4 := Next(s3, ts[3]);
    ss := [s0, s1, s2, s3, s4];
    assert s4.procs[1] == Reader(1, true);
  }
}
