/** The physical redo log of kernel/log.c on a plain block array: what each sequence of
    block writes leaves on disk, and why recovery makes a commit atomic. */
module RedoLog {
  import opened Blocks

  const MAXOPBLOCKS: nat := 10
  const LOGSIZE: nat := 3 * MAXOPBLOCKS

  type Disk = seq<Block>

  /** `log.start` and `log.size`: the header block, then size - 1 data blocks. */
  datatype Layout = Layout(start: nat, size: nat)

  predicate ValidLayout(L: Layout, d: Disk) {
    1 <= L.size && L.start + L.size <= |d| <= UINT_LIMIT
  }

  /** A block number the log may carry: on the disk and outside the log region. */
  predicate Home(L: Layout, d: Disk, b: nat) {
    b < |d| && !(L.start <= b < L.start + L.size)
  }

  predicate ValidList(L: Layout, d: Disk, hs: seq<nat>) {
    && |hs| <= LOGSIZE && |hs| < L.size
    && forall i :: 0 <= i < |hs| ==> Home(L, d, hs[i])
  }

  ghost predicate SameHome(L: Layout, d: Disk, e: Disk) {
    |d| == |e| && forall b: nat :: Home(L, d, b) ==> d[b] == e[b]
  }

  lemma SameHomeTransitive(L: Layout, d: Disk, e: Disk, f: Disk)
    requires SameHome(L, d, e) && SameHome(L, e, f)
    ensures SameHome(L, d, f)
  {
  }

  // ---- the on-disk header ------------------------------------------------------------

  /** A list that fits `struct logheader`. */
  predicate Entries(hs: seq<nat>) {
    |hs| <= LOGSIZE && forall i :: 0 <= i < |hs| ==> hs[i] < UINT_LIMIT
  }

  /** `struct logheader` in a block: word 0 is n, words 1.. are block[]. */
  function HeadList(b: Block): (hs: seq<nat>)
    requires Word(b, 0) <= LOGSIZE
  {
    seq(Word(b, 0), i requires 0 <= i < Word(b, 0) => Word(b, 1 + i))
  }

  /** The first k entries written over a header block whose n is already set. */
  function PutEntries(b: Block, hs: seq<nat>, k: nat): Block
    requires k <= |hs| && Entries(hs)
  {
    if k == 0 then b else PutWord(PutEntries(b, hs, k - 1), k, hs[k - 1])
  }

  function PutHead(b: Block, hs: seq<nat>): Block
    requires Entries(hs)
  {
    PutEntries(PutWord(b, 0, |hs|), hs, |hs|)
  }

  lemma {:induction false} EntriesAt(b: Block, hs: seq<nat>, k: nat, j: nat)
    requires k <= |hs| && Entries(hs)
    requires j < WORDS
    ensures Word(PutEntries(b, hs, k), j) == if 1 <= j <= k then hs[j - 1] else Word(b, j)
  {
    if k > 0 {
      EntriesAt(b, hs, k - 1, j);
      WordOfPutWord(PutEntries(b, hs, k - 1), k, hs[k - 1], j);
    }
  }

  /** Writing a header and reading it back gives the same list, whatever stale entries
      the block held before. */
  lemma HeadRoundTrip(b: Block, hs: seq<nat>)
    requires Entries(hs)
    ensures Word(PutHead(b, hs), 0) == |hs|
    ensures HeadList(PutHead(b, hs)) == hs
  {
    var c := PutWord(b, 0, |hs|);
    forall j | 0 <= j <= |hs|
      ensures Word(PutHead(b, hs), j) == if j == 0 then |hs| else hs[j - 1]
    {
      EntriesAt(c, hs, |hs|, j);
      WordOfPutWord(b, 0, |hs|, j);
    }
  }

  /** The header block on disk names a list that recovery can install. */
  predicate ValidDisk(L: Layout, d: Disk) {
    && ValidLayout(L, d)
    && Word(d[L.start], 0) <= LOGSIZE
    && ValidList(L, d, HeadList(d[L.start]))
  }

  // ---- installing --------------------------------------------------------------------

  /** The disk after the first k iterations of install_trans. */
  function Installed(L: Layout, d: Disk, hs: seq<nat>, k: nat): (e: Disk)
    requires ValidLayout(L, d) && ValidList(L, d, hs) && k <= |hs|
    ensures |e| == |d|
  {
    if k == 0 then d
    else
      var e := Installed(L, d, hs, k - 1);
      e[hs[k - 1] := e[L.start + k]]
  }

  function LastIndex(hs: seq<nat>, b: nat): (i: nat)
    requires b in hs
    ensures i < |hs| && hs[i] == b
  {
    if hs[|hs| - 1] == b then |hs| - 1 else LastIndex(hs[..|hs| - 1], b)
  }

  /** What block b will hold once the list hs has been replayed from the log. */
  function Replayed(L: Layout, d: Disk, hs: seq<nat>, b: nat): Block
    requires ValidLayout(L, d) && ValidList(L, d, hs) && b < |d|
  {
    if b in hs then d[L.start + 1 + LastIndex(hs, b)] else d[b]
  }

  /** Install never touches the log region. */
  lemma {:induction false} InstallKeepsLog(L: Layout, d: Disk, hs: seq<nat>, k: nat, b: nat)
    requires ValidLayout(L, d) && ValidList(L, d, hs) && k <= |hs|
    requires L.start <= b < L.start + L.size
    ensures Installed(L, d, hs, k)[b] == d[b]
  {
    if k > 0 {
      InstallKeepsLog(L, d, hs, k - 1, b);
      assert Home(L, d, hs[k - 1]);
    }
  }

  lemma {:induction false} InstalledAt(L: Layout, d: Disk, hs: seq<nat>, k: nat, b: nat)
    requires ValidLayout(L, d) && ValidList(L, d, hs) && k <= |hs| && b < |d|
    ensures Installed(L, d, hs, k)[b] == Replayed(L, d, hs[..k], b)
  {
    if k > 0 {
      InstalledAt(L, d, hs, k - 1, b);
      InstallKeepsLog(L, d, hs, k - 1, L.start + k);
      assert hs[..k][..k - 1] == hs[..k - 1];
      assert hs[..k] == hs[..k - 1] + [hs[k - 1]];
    }
  }

  /** recover_from_log, run to completion. */
  function Recover(L: Layout, d: Disk): (e: Disk)
    requires ValidDisk(L, d)
    ensures |e| == |d|
  {
    var hs := HeadList(d[L.start]);
    Installed(L, d, hs, |hs|)[L.start := PutHead(d[L.start], [])]
  }

  /** Recovery cut off after k block writes (all of them when k exceeds their number). */
  function RecoverPrefix(L: Layout, d: Disk, k: nat): (e: Disk)
    requires ValidDisk(L, d)
    ensures |e| == |d|
  {
    var hs := HeadList(d[L.start]);
    if k <= |hs| then Installed(L, d, hs, k) else Recover(L, d)
  }

  /** The disks seen after each block write of a complete recovery, in order. */
  function RecoverTrace(L: Layout, d: Disk): (t: seq<Disk>)
    requires ValidDisk(L, d)
  {
    var n := |HeadList(d[L.start])|;
    seq(n + 1, i requires 0 <= i <= n => RecoverPrefix(L, d, i + 1))
  }

  function InstallTrace(L: Layout, d: Disk, hs: seq<nat>, k: nat): (t: seq<Disk>)
    requires ValidLayout(L, d) && ValidList(L, d, hs) && k <= |hs|
  {
    seq(k, i requires 0 <= i < k => Installed(L, d, hs, i + 1))
  }

  lemma RecoverTraceParts(L: Layout, d: Disk)
    requires ValidDisk(L, d)
    ensures var hs := HeadList(d[L.start]);
            RecoverTrace(L, d) == InstallTrace(L, d, hs, |hs|) + [Recover(L, d)]
  {
  }

  lemma RecoverAt(L: Layout, d: Disk, b: nat)
    requires ValidDisk(L, d) && Home(L, d, b)
    ensures Recover(L, d)[b] == Replayed(L, d, HeadList(d[L.start]), b)
  {
    var hs := HeadList(d[L.start]);
    assert hs[..|hs|] == hs;
    InstalledAt(L, d, hs, |hs|, b);
  }

  /** A complete recovery leaves an empty header, and recovering again changes no home block. */
  lemma RecoveredIsClean(L: Layout, d: Disk)
    requires ValidDisk(L, d)
    ensures ValidDisk(L, Recover(L, d)) && HeadList(Recover(L, d)[L.start]) == []
    ensures SameHome(L, Recover(L, Recover(L, d)), Recover(L, d))
  {
    HeadRoundTrip(d[L.start], []);
    var e := Recover(L, d);
    forall b: nat | Home(L, e, b) ensures Recover(L, e)[b] == e[b] {
      RecoverAt(L, e, b);
    }
  }

  /** An interrupted recovery can be run again: the home blocks end the same. */
  lemma RecoverAfterPrefix(L: Layout, d: Disk, k: nat)
    requires ValidDisk(L, d)
    ensures ValidDisk(L, RecoverPrefix(L, d, k))
    ensures SameHome(L, Recover(L, RecoverPrefix(L, d, k)), Recover(L, d))
  {
    var hs := HeadList(d[L.start]);
    var e := RecoverPrefix(L, d, k);
    if k <= |hs| {
      InstallKeepsLog(L, d, hs, k, L.start);
      assert ValidList(L, e, hs);
      forall b: nat | Home(L, d, b)
        ensures Recover(L, e)[b] == Recover(L, d)[b]
      {
        RecoverAt(L, d, b);
        RecoverAt(L, e, b);
        if b in hs {
          InstallKeepsLog(L, d, hs, k, L.start + 1 + LastIndex(hs, b));
        } else {
          assert b !in hs[..k];
          InstalledAt(L, d, hs, k, b);
        }
      }
    } else {
      RecoveredIsClean(L, d);
      forall b: nat | Home(L, e, b)
        ensures Recover(L, e)[b] == e[b]
      {
        RecoverAt(L, e, b);
      }
    }
  }

  /** Any number of recoveries, each cut off by a crash. */
  function AfterCrashes(L: Layout, d: Disk, cuts: seq<nat>): (e: Disk)
    requires ValidDisk(L, d)
    ensures |e| == |d| && ValidDisk(L, e)
    decreases |cuts|
  {
    if cuts == [] then d
    else
      RecoverAfterPrefix(L, d, cuts[0]);
      AfterCrashes(L, RecoverPrefix(L, d, cuts[0]), cuts[1..])
  }

  lemma {:induction false} CrashedRecoveries(L: Layout, d: Disk, cuts: seq<nat>)
    requires ValidDisk(L, d)
    ensures SameHome(L, Recover(L, AfterCrashes(L, d, cuts)), Recover(L, d))
    decreases |cuts|
  {
    if cuts != [] {
      RecoverAfterPrefix(L, d, cuts[0]);
      CrashedRecoveries(L, RecoverPrefix(L, d, cuts[0]), cuts[1..]);
    }
  }

  // ---- committing --------------------------------------------------------------------

  /** Block b as file-system code sees it: its pinned buffer, or else the disk. */
  function Cached(d: Disk, dirty: map<nat, Block>, b: nat): Block
    requires b < |d|
  {
    if b in dirty then dirty[b] else d[b]
  }

  /** log_write has pinned exactly the buffers of the listed blocks. */
  ghost predicate Pins(dirty: map<nat, Block>, hs: seq<nat>) {
    forall b :: b in dirty <==> b in hs
  }

  /** All blocks as file-system code sees them. */
  function Overlay(d: Disk, dirty: map<nat, Block>): (e: Disk)
    ensures |e| == |d|
    ensures forall b :: 0 <= b < |d| ==> e[b] == Cached(d, dirty, b)
  {
    seq(|d|, b requires 0 <= b < |d| => Cached(d, dirty, b))
  }

  /** The disk after the first k iterations of write_log. */
  function Logged(L: Layout, d: Disk, hs: seq<nat>, dirty: map<nat, Block>, k: nat): (e: Disk)
    requires ValidLayout(L, d) && ValidList(L, d, hs) && k <= |hs|
    ensures |e| == |d|
  {
    if k == 0 then d
    else
      var e := Logged(L, d, hs, dirty, k - 1);
      e[L.start + k := Cached(e, dirty, hs[k - 1])]
  }

  lemma {:induction false} LoggedAt(L: Layout, d: Disk, hs: seq<nat>, dirty: map<nat, Block>, k: nat, b: nat)
    requires ValidLayout(L, d) && ValidList(L, d, hs) && k <= |hs| && b < |d|
    ensures Logged(L, d, hs, dirty, k)[b] ==
            if L.start < b <= L.start + k then Cached(d, dirty, hs[b - L.start - 1]) else d[b]
  {
    if k > 0 {
      LoggedAt(L, d, hs, dirty, k - 1, b);
      LoggedAt(L, d, hs, dirty, k - 1, hs[k - 1]);
    }
  }

  /** The disk at the commit point: the log blocks and then the header are written. */
  function HeaderWritten(L: Layout, d: Disk, hs: seq<nat>, dirty: map<nat, Block>): (e: Disk)
    requires ValidLayout(L, d) && ValidList(L, d, hs)
    ensures |e| == |d|
  {
    Logged(L, d, hs, dirty, |hs|)[L.start := PutHead(d[L.start], hs)]
  }

  /** The disk when everything is installed and the header is emptied. */
  function Cleared(L: Layout, c: Disk, hs: seq<nat>): (e: Disk)
    requires ValidLayout(L, c) && ValidList(L, c, hs)
    ensures |e| == |c|
  {
    Installed(L, c, hs, |hs|)[L.start := PutHead(c[L.start], [])]
  }

  /** The disk after the first k block writes of commit, in program order: |hs| log
      blocks, the header (the commit point), |hs| home blocks, the emptied header. */
  function Committed(L: Layout, d: Disk, hs: seq<nat>, dirty: map<nat, Block>, k: nat): (e: Disk)
    requires ValidLayout(L, d) && ValidList(L, d, hs) && k <= 2 * |hs| + 2
    ensures |e| == |d|
  {
    var n := |hs|;
    var c := HeaderWritten(L, d, hs, dirty);
    if k <= n then Logged(L, d, hs, dirty, k)
    else if k <= 2 * n + 1 then Installed(L, c, hs, k - n - 1)
    else Cleared(L, c, hs)
  }

  /** The disks seen after each block write of an uninterrupted commit, in order. */
  function CommitTrace(L: Layout, d: Disk, hs: seq<nat>, dirty: map<nat, Block>): (t: seq<Disk>)
    requires ValidLayout(L, d) && ValidList(L, d, hs)
  {
    seq(2 * |hs| + 2, i requires 0 <= i < 2 * |hs| + 2 => Committed(L, d, hs, dirty, i + 1))
  }

  function LogTrace(L: Layout, d: Disk, hs: seq<nat>, dirty: map<nat, Block>, k: nat): (t: seq<Disk>)
    requires ValidLayout(L, d) && ValidList(L, d, hs) && k <= |hs|
  {
    seq(k, i requires 0 <= i < k => Logged(L, d, hs, dirty, i + 1))
  }

  lemma CommitTraceParts(L: Layout, d: Disk, hs: seq<nat>, dirty: map<nat, Block>)
    requires ValidLayout(L, d) && ValidList(L, d, hs)
    ensures var c := HeaderWritten(L, d, hs, dirty);
            CommitTrace(L, d, hs, dirty) ==
              LogTrace(L, d, hs, dirty, |hs|) + [c] + InstallTrace(L, c, hs, |hs|) + [Cleared(L, c, hs)]
  {
    var n, c, t := |hs|, HeaderWritten(L, d, hs, dirty), CommitTrace(L, d, hs, dirty);
    var a, e := LogTrace(L, d, hs, dirty, n), InstallTrace(L, c, hs, n);
    forall i | 0 <= i < |t|
      ensures t[i] == (a + [c] + e + [Cleared(L, c, hs)])[i]
    {
      assert t[i] == Committed(L, d, hs, dirty, i + 1);
      if i > n && i < 2 * n + 1 {
        assert (a + [c] + e)[i] == e[i - n - 1];
      }
    }
  }

  /** Before the header write, recovery finds an empty log. */
  lemma LoggedRecovers(L: Layout, d: Disk, hs: seq<nat>, dirty: map<nat, Block>, k: nat)
    requires ValidDisk(L, d) && HeadList(d[L.start]) == [] && ValidList(L, d, hs) && k <= |hs|
    ensures ValidDisk(L, Logged(L, d, hs, dirty, k))
    ensures SameHome(L, Recover(L, Logged(L, d, hs, dirty, k)), d)
  {
    var e := Logged(L, d, hs, dirty, k);
    LoggedAt(L, d, hs, dirty, k, L.start);
    forall b: nat | Home(L, e, b)
      ensures Recover(L, e)[b] == d[b]
    {
      RecoverAt(L, e, b);
      LoggedAt(L, d, hs, dirty, k, b);
    }
  }

  /** A fully written log under a header block replays to the pinned buffers. */
  lemma ReplayLogged(L: Layout, d: Disk, c: Disk, hs: seq<nat>, dirty: map<nat, Block>, b: nat)
    requires ValidLayout(L, d) && ValidList(L, d, hs) && Home(L, d, b)
    requires Pins(dirty, hs)
    requires |c| == |d|
    requires forall i :: 0 <= i < |c| && i != L.start ==> c[i] == Logged(L, d, hs, dirty, |hs|)[i]
    ensures Replayed(L, c, hs, b) == Cached(d, dirty, b)
  {
    if b in hs {
      var i := L.start + 1 + LastIndex(hs, b);
      LoggedAt(L, d, hs, dirty, |hs|, i);
      assert c[i] == Cached(d, dirty, b);
    } else {
      LoggedAt(L, d, hs, dirty, |hs|, b);
      assert c[b] == d[b];
    }
  }

  /** Just after the header write, recovery replays exactly the pinned buffers. */
  lemma HeaderWriteRecovers(L: Layout, d: Disk, hs: seq<nat>, dirty: map<nat, Block>)
    requires ValidLayout(L, d) && ValidList(L, d, hs)
    requires Pins(dirty, hs)
    ensures var c := HeaderWritten(L, d, hs, dirty);
            && ValidDisk(L, c) && HeadList(c[L.start]) == hs
            && SameHome(L, Recover(L, c), Overlay(d, dirty))
  {
    var c := HeaderWritten(L, d, hs, dirty);
    HeadRoundTrip(d[L.start], hs);
    forall b: nat | Home(L, c, b)
      ensures Recover(L, c)[b] == Overlay(d, dirty)[b]
    {
      RecoverAt(L, c, b);
      ReplayLogged(L, d, c, hs, dirty, b);
    }
  }

  /** From the commit point on, commit does block for block what recovery would do. */
  lemma CommitTailIsRecovery(L: Layout, d: Disk, hs: seq<nat>, dirty: map<nat, Block>, k: nat)
    requires ValidLayout(L, d) && ValidList(L, d, hs)
    requires Pins(dirty, hs)
    requires |hs| < k <= 2 * |hs| + 2
    ensures ValidDisk(L, HeaderWritten(L, d, hs, dirty))
    ensures Committed(L, d, hs, dirty, k) == RecoverPrefix(L, HeaderWritten(L, d, hs, dirty), k - |hs| - 1)
  {
    HeaderWriteRecovers(L, d, hs, dirty);
  }

  lemma CommitPrefixRecovers(L: Layout, d: Disk, hs: seq<nat>, dirty: map<nat, Block>, k: nat)
    requires ValidDisk(L, d) && HeadList(d[L.start]) == [] && ValidList(L, d, hs)
    requires Pins(dirty, hs)
    requires k <= 2 * |hs| + 2
    ensures ValidDisk(L, Committed(L, d, hs, dirty, k))
    ensures SameHome(L, Recover(L, Committed(L, d, hs, dirty, k)), if k <= |hs| then d else Overlay(d, dirty))
  {
    if k <= |hs| {
      LoggedRecovers(L, d, hs, dirty, k);
    } else {
      var c := HeaderWritten(L, d, hs, dirty);
      HeaderWriteRecovers(L, d, hs, dirty);
      CommitTailIsRecovery(L, d, hs, dirty, k);
      var e := RecoverPrefix(L, c, k - |hs| - 1);
      RecoverAfterPrefix(L, c, k - |hs| - 1);
      SameHomeTransitive(L, Recover(L, e), Recover(L, c), Overlay(d, dirty));
    }
  }

  /** Crash atomicity. Cut commit off after any number k of its block writes, then crash
      any number of recoveries, then let one finish: the home blocks are those of before
      the transaction when the header write had not happened, and those with every pinned
      buffer applied when it had. */
  lemma CrashAtomicity(L: Layout, d: Disk, hs: seq<nat>, dirty: map<nat, Block>, k: nat, cuts: seq<nat>)
    requires ValidDisk(L, d) && HeadList(d[L.start]) == [] && ValidList(L, d, hs)
    requires Pins(dirty, hs)
    requires k <= 2 * |hs| + 2
    ensures ValidDisk(L, Committed(L, d, hs, dirty, k))
    ensures SameHome(L, Recover(L, AfterCrashes(L, Committed(L, d, hs, dirty, k), cuts)),
                     if k <= |hs| then d else Overlay(d, dirty))
  {
    CommitPrefixRecovers(L, d, hs, dirty, k);
    var e := Committed(L, d, hs, dirty, k);
    CrashedRecoveries(L, e, cuts);
    SameHomeTransitive(L, Recover(L, AfterCrashes(L, e, cuts)), Recover(L, e),
                       if k <= |hs| then d else Overlay(d, dirty));
  }

  /** An uninterrupted commit leaves the home blocks updated and the log empty. */
  lemma CommitCompletes(L: Layout, d: Disk, hs: seq<nat>, dirty: map<nat, Block>)
    requires ValidLayout(L, d) && ValidList(L, d, hs)
    requires Pins(dirty, hs)
    ensures var e := Committed(L, d, hs, dirty, 2 * |hs| + 2);
            ValidDisk(L, e) && HeadList(e[L.start]) == [] && SameHome(L, e, Overlay(d, dirty))
  {
    HeaderWriteRecovers(L, d, hs, dirty);
    CommitTailIsRecovery(L, d, hs, dirty, 2 * |hs| + 2);
    RecoveredIsClean(L, HeaderWritten(L, d, hs, dirty));
  }
}
