/** kernel/log.c as it runs: the global log record, updated in place, over a block device
    that remembers in a ghost trace the disk after every single block write. */
module LogDriver {
  import opened Blocks
  import opened RedoLog

  datatype Outcome = Done | Panic(message: string)

  /** The list after log_write(b): absorbed when already there, appended otherwise. */
  function Appended(hs: seq<nat>, b: nat): seq<nat> {
    if b in hs then hs else hs + [b]
  }

  /** log_write's first check: the transaction would be too big. */
  predicate TooBig(L: Layout, n: nat) {
    n >= LOGSIZE || n >= L.size - 1
  }

  /** begin_op may admit one more operation. */
  predicate Admits(n: nat, outstanding: nat, committing: bool) {
    !committing && n + (outstanding + 1) * MAXOPBLOCKS <= LOGSIZE
  }

  lemma ConcatAssociates<T>(t: seq<T>, a: seq<T>, b: seq<T>, c: seq<T>, d: seq<T>)
    ensures t + (a + b) + (c + d) == t + (a + b + c + d)
  {
  }

  class Log {
    const L: Layout
    var disk: Disk
    var dirty: map<nat, Block>   // contents of the buffers pinned by log_write
    var n: nat
    const block: array<nat>
    var outstanding: int
    var committing: bool
    ghost var trace: seq<Disk>

    ghost predicate Valid()
      reads this, block
    {
      && ValidLayout(L, disk) && block.Length == LOGSIZE && n <= LOGSIZE
      && ValidList(L, disk, List())
    }

    ghost function List(): (hs: seq<nat>)
      reads this, block
      requires block.Length == LOGSIZE && n <= LOGSIZE
    {
      block[..n]
    }

    /** Power-on: memory is fresh, the disk is whatever it was. */
    constructor (L: Layout, disk: Disk)
      requires ValidLayout(L, disk)
      ensures Valid() && this.L == L && this.disk == disk && dirty == map[] && List() == []
      ensures outstanding == 0 && !committing && trace == [] && fresh(block)
    {
      this.L, this.disk, this.dirty, this.n := L, disk, map[], 0;
      this.outstanding, this.committing, this.trace := 0, false, [];
      this.block := new nat[LOGSIZE];
    }

    /** bread */
    function BRead(b: nat): Block
      reads this
      requires b < |disk|
    {
      Cached(disk, dirty, b)
    }

    /** bwrite: one block reaches the disk atomically. */
    method BWrite(b: nat, data: Block)
      requires b < |disk|
      modifies this`disk, this`trace
      ensures disk == old(disk)[b := data] && trace == old(trace) + [disk]
    {
      disk := disk[b := data];
      trace := trace + [disk];
    }

    method ReadHead()
      requires ValidDisk(L, disk) && block.Length == LOGSIZE
      modifies this`n, block
      ensures Valid() && List() == HeadList(disk[L.start])
    {
      var lh := disk[L.start];
      n := Word(lh, 0);
      for i := 0 to n
        invariant block[..i] == HeadList(lh)[..i]
        modifies block
      {
        block[i] := Word(lh, 1 + i);
      }
    }

    method WriteHead()
      requires Valid()
      modifies this`disk, this`trace
      ensures Valid()
      ensures disk == old(disk)[L.start := PutHead(old(disk)[L.start], List())]
      ensures trace == old(trace) + [disk]
    {
      ghost var hs := List();
      var hb := PutWord(disk[L.start], 0, n);
      for i := 0 to n
        invariant hb == PutEntries(PutWord(disk[L.start], 0, n), hs, i)
      {
        hb := PutWord(hb, 1 + i, block[i]);
      }
      BWrite(L.start, hb);
    }

    method WriteLog()
      requires Valid()
      modifies this`disk, this`trace
      ensures Valid()
      ensures disk == Logged(L, old(disk), List(), dirty, n)
      ensures trace == old(trace) + LogTrace(L, old(disk), List(), dirty, n)
    {
      ghost var d := disk;
      ghost var hs := List();
      for tail := 0 to n
        invariant |disk| == |d| && disk == Logged(L, d, hs, dirty, tail)
        invariant trace == old(trace) + LogTrace(L, d, hs, dirty, tail)
      {
        ghost var e := disk;
        BWrite(L.start + tail + 1, BRead(block[tail]));
        assert disk == Logged(L, d, hs, dirty, tail + 1);
        assert LogTrace(L, d, hs, dirty, tail + 1) == LogTrace(L, d, hs, dirty, tail) + [disk];
      }
    }

    method InstallTrans()
      requires Valid()
      requires forall b :: b in dirty ==> b in List()
      modifies this`disk, this`trace, this`dirty
      ensures Valid() && dirty == map[]
      ensures disk == Installed(L, old(disk), List(), n)
      ensures trace == old(trace) + InstallTrace(L, old(disk), List(), n)
    {
      ghost var d := disk;
      ghost var hs := List();
      for tail := 0 to n
        invariant |disk| == |d| && disk == Installed(L, d, hs, tail)
        invariant forall b :: b in dirty ==> b in hs[tail..]
        invariant trace == old(trace) + InstallTrace(L, d, hs, tail)
      {
        assert L.start + tail + 1 !in hs[tail..];
        BWrite(block[tail], BRead(L.start + tail + 1));
        dirty := dirty - {block[tail]};   // bunpin: the buffer is clean again
        assert hs[tail..] == [hs[tail]] + hs[tail + 1..];
      }
    }

    /** The first half of commit's body, up to the commit point. */
    method WriteTransaction()
      requires Valid()
      modifies this`disk, this`trace
      ensures Valid() && disk == HeaderWritten(L, old(disk), List(), dirty)
      ensures trace == old(trace) + (LogTrace(L, old(disk), List(), dirty, n) + [disk])
    {
      ghost var d, hs := disk, List();
      WriteLog();
      assert disk[L.start] == d[L.start] by { LoggedAt(L, d, hs, dirty, |hs|, L.start); }
      WriteHead();
    }

    /** The second half: home blocks, then an empty header. */
    method InstallAndErase()
      requires Valid()
      requires forall b :: b in dirty ==> b in List()
      modifies this`disk, this`trace, this`dirty, this`n
      ensures Valid() && List() == [] && dirty == map[]
      ensures disk == Cleared(L, old(disk), old(List()))
      ensures trace == old(trace) + (InstallTrace(L, old(disk), old(List()), old(n)) + [disk])
    {
      ghost var c, hs := disk, List();
      InstallTrans();
      assert disk[L.start] == c[L.start] by { InstallKeepsLog(L, c, hs, |hs|, L.start); }
      n := 0;
      assert List() == [];
      WriteHead();
    }

    /** Every disk state that a crash during commit can leave behind is one of the states
        of Committed, so CrashAtomicity speaks about each of them. */
    method Commit()
      requires Valid()
      requires Pins(dirty, List())
      modifies this`disk, this`trace, this`dirty, this`n
      ensures Valid() && List() == [] && dirty == map[]
      ensures old(n) == 0 ==> disk == old(disk) && trace == old(trace)
      ensures old(n) > 0 ==> && disk == Committed(L, old(disk), old(List()), old(dirty), 2 * old(n) + 2)
                             && trace == old(trace) + CommitTrace(L, old(disk), old(List()), old(dirty))
    {
      ghost var hs, m, d, t := List(), dirty, disk, trace;
      if n > 0 {
        WriteTransaction();
        InstallAndErase();
        ghost var c := HeaderWritten(L, d, hs, m);
        assert trace == t + CommitTrace(L, d, hs, m) by {
          CommitTraceParts(L, d, hs, m);
          ConcatAssociates(t, LogTrace(L, d, hs, m, |hs|), [c], InstallTrace(L, c, hs, |hs|), [disk]);
        }
      }
    }

    method RecoverFromLog()
      requires ValidDisk(L, disk) && block.Length == LOGSIZE && dirty == map[]
      modifies this`disk, this`trace, this`dirty, this`n, block
      ensures Valid() && List() == [] && dirty == map[]
      ensures disk == Recover(L, old(disk))
      ensures trace == old(trace) + RecoverTrace(L, old(disk))
    {
      ghost var d := disk;
      ReadHead();
      InstallAndErase();
      RecoverTraceParts(L, d);
    }

    /** One round of begin_op's loop: admitted, or the caller sleeps and tries again. */
    method BeginOp() returns (admitted: bool)
      requires Valid() && outstanding >= 0
      modifies this`outstanding
      ensures admitted <==> Admits(old(n), old(outstanding), committing)
      ensures outstanding == if admitted then old(outstanding) + 1 else old(outstanding)
    {
      if committing {
        return false;
      } else if n + (outstanding + 1) * MAXOPBLOCKS > LOGSIZE {
        return false;
      } else {
        outstanding := outstanding + 1;
        return true;
      }
    }

    /** end_op up to the release of the lock: doCommit tells the caller to commit. */
    method LeaveOp() returns (r: Outcome, doCommit: bool)
      modifies this`outstanding, this`committing
      ensures outstanding == old(outstanding) - 1
      ensures r == if old(committing) then Panic("log.committing") else Done
      ensures r == Done ==> doCommit == (outstanding == 0) && committing == doCommit
    {
      outstanding := outstanding - 1;
      if committing {
        return Panic("log.committing"), false;
      }
      doCommit := false;
      if outstanding == 0 {
        doCommit := true;
        committing := true;
      }
      r := Done;
    }

    /** end_op: the last operation to end commits everything logged and lets others begin; the
        disk passes through exactly the states of a commit. */
    method EndOp() returns (r: Outcome)
      requires Valid() && Pins(dirty, List())
      modifies this`outstanding, this`committing, this`disk, this`trace, this`dirty, this`n
      ensures Valid()
      ensures r == if old(committing) then Panic("log.committing") else Done
      ensures outstanding == old(outstanding) - 1
      ensures r == Done && outstanding != 0 ==>
                disk == old(disk) && trace == old(trace) && List() == old(List()) && dirty == old(dirty) && !committing
      ensures r == Done && outstanding == 0 ==> List() == [] && dirty == map[] && !committing
      ensures r == Done && outstanding == 0 && old(n) > 0 ==>
                && disk == Committed(L, old(disk), old(List()), old(dirty), 2 * old(n) + 2)
                && trace == old(trace) + CommitTrace(L, old(disk), old(List()), old(dirty))
      ensures r == Done && outstanding == 0 && old(n) == 0 ==> disk == old(disk) && trace == old(trace)
    {
      var doCommit;
      r, doCommit := LeaveOp();
      if r == Done && doCommit {
        Commit();
        committing := false;
      }
    }

    ghost predicate InMemory()
      reads this
    {
      block.Length == LOGSIZE && n <= LOGSIZE
    }

    /** The tests at the start of log_write, made without the lock. */
    method LogTest() returns (r: Outcome)
      ensures r == if TooBig(L, n) then Panic("too big a transaction")
                   else if outstanding < 1 then Panic("log_write outside of trans")
                   else Done
    {
      if n >= LOGSIZE || n >= L.size - 1 {
        return Panic("too big a transaction");
      }
      if outstanding < 1 {
        return Panic("log_write outside of trans");
      }
      return Done;
    }

    /** The rest of log_write, under the lock, for block b whose buffer now holds data. It does
        not look at the size of the log again; the list stays inside the log exactly when it
        has room for it. */
    method LogAppend(b: nat, data: Block)
      requires InMemory() && (n < LOGSIZE || b in List())
      modifies this`n, this`dirty, block
      ensures InMemory() && List() == Appended(old(List()), b) && dirty == old(dirty)[b := data]
      ensures old(Valid()) && Home(L, disk, b) ==> (Valid() <==> |List()| < L.size)
    {
      var i := 0;
      while i < n && block[i] != b
        invariant i <= n && b !in block[..i]
      {
        i := i + 1;
      }
      ghost var hs := List();
      assert i < n ==> b in hs;
      block[i] := b;
      if i == n {
        n := n + 1;
      }
      assert List() == Appended(hs, b);
      dirty := dirty[b := data];
    }

    /** log_write by a process that no other one overtakes between the tests and the lock: the
        tests are enough then, the list never outgrows the log on disk, and a refused block
        leaves everything as it was. */
    method LogWrite(b: nat, data: Block) returns (r: Outcome)
      requires Valid() && Home(L, disk, b)
      modifies this`n, this`dirty, block
      ensures Valid()
      ensures r == Done <==> outstanding >= 1 && |old(List())| < LOGSIZE && |old(List())| + 1 < L.size
      ensures r == Done ==> List() == Appended(old(List()), b) && dirty == old(dirty)[b := data]
      ensures r != Done ==> List() == old(List()) && dirty == old(dirty)
    {
      r := LogTest();
      if r == Done {
        LogAppend(b, data);
      }
    }
  }
}
