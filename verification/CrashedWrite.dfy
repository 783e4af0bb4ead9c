/** filewrite over the log: whenever the machine crashes, the file that recovery leaves has been
    spliced with a whole number of chunks, and no other file has changed. This joins the volume
    of FileSystem to the disk of LogMachine. */
module CrashedWrite {
  import opened Blocks
  import opened Volume
  import opened VolumeProofs
  import opened Files
  import opened InodeBlocks
  import opened FileSystem
  import BlockNeeds
  import RedoLog
  import LogMachine

  // ---- one transaction ---------------------------------------------------------------------

  /** The writes of a transaction, when it ends: every block that it logged, as it is by then. */
  ghost predicate Complete(pend: Image, t: Txn) {
    t.logged <= pend.Keys && forall b: nat :: b in pend ==> Right(pend[b], b, t.v)
  }

  /** Every transaction can be completed. */
  lemma CanComplete(t: Txn)
    requires Shape(t.v) && InodesFit(t.v)
    ensures Complete(map b | b in t.logged :: BlockFor(t.v, b), t)
  {
    forall b: nat | b in t.logged ensures Right(BlockFor(t.v, b), b, t.v) {
      BlockForIsRight(t.v, b);
    }
  }

  /** A block that a transaction did not log is right for the volume after it as well. */
  lemma StillRight(x: Block, b: nat, u: Vol, v: Vol, log: set<nat>, i: nat)
    requires Right(x, b, u) && Through(u, {}, v, log, i) && b !in log
    ensures Right(x, b, v)
  {
  }

  /** No change escapes the log: the image before the transaction, with its writes, holds the
      volume after it. */
  lemma CompleteStands(img: Image, u: Vol, t: Txn, pend: Image, i: nat)
    requires Stands(img, u) && Through(u, {}, t.v, t.logged, i) && Complete(pend, t)
    ensures Stands(img + pend, t.v)
  {
    forall b: nat | b in img + pend ensures Right((img + pend)[b], b, t.v) {
      if b !in pend { StillRight(img[b], b, u, t.v, t.logged, i); }
    }
    hide Right;
  }

  // ---- runs of the log driven by filewrite ----------------------------------------------------

  /** What a step does to the number k of transactions that thread t has ended, and to the writes
      of the one it is in. Only t writes; it ends a transaction when its writes are complete. */
  ghost predicate Client(step: LogMachine.Step, t: nat, txns: seq<Txn>, k: nat, pend: Image, k': nat, pend': Image) {
    match step
    case Begin(x) => k' == k && pend' == if x == t then map[] else pend
    case Write(x, b, data) => x == t && k' == k && pend' == pend[b := data]
    case End(x) =>
      if x == t then k < |txns| && Complete(pend, txns[k]) && k' == k + 1 && pend' == map[]
      else k' == k && pend' == pend
    case Crash => false
    case _ => k' == k && pend' == pend
  }

  /** A run of the log up to a crash, in which thread t makes the transactions. */
  datatype Trace = Trace(states: seq<LogMachine.State>, steps: seq<LogMachine.Step>, ks: seq<nat>, pends: seq<Image>)

  ghost predicate Goes(L: RedoLog.Layout, t: nat, txns: seq<Txn>, r: Trace, j: nat)
    requires j < |r.steps| && |r.states| == |r.ks| == |r.pends| == |r.steps| + 1
  {
    && LogMachine.Follows(L, r.states[j], r.steps[j], r.states[j + 1])
    && Client(r.steps[j], t, txns, r.ks[j], r.pends[j], r.ks[j + 1], r.pends[j + 1])
  }

  /** It begins outside a transaction of t, with v0 on the disk for good and for the kernel. */
  ghost predicate Driven(L: RedoLog.Layout, t: nat, v0: Vol, txns: seq<Txn>, r: Trace) {
    && |r.states| == |r.ks| == |r.pends| == |r.steps| + 1
    && LogMachine.Inv(L, r.states[0]) && t < |r.states[0].ops| && !r.states[0].ops[t].Open?
    && Stands(LogMachine.Durable(L, r.states[0]), v0) && Stands(LogMachine.Current(L, r.states[0]), v0)
    && r.ks[0] == 0 && r.pends[0] == map[]
    && forall j: nat :: j < |r.steps| ==> Goes(L, t, txns, r, j)
  }

  ghost predicate Chained(v0: Vol, txns: seq<Txn>, i: nat) {
    forall k: nat :: k < |txns| ==> Through(Before(v0, txns, k), {}, txns[k].v, txns[k].logged, i)
  }

  /** The kernel sees the volume after k transactions, with the writes since. */
  ghost predicate Sees(current: Image, v: Vol, pend: Image) {
    exists base: Image :: Stands(base, v) && current == base + pend
  }

  ghost predicate Sound(L: RedoLog.Layout, t: nat, v0: Vol, txns: seq<Txn>, s: LogMachine.State, k: nat, pend: Image,
                        d: nat) {
    && LogMachine.Inv(L, s) && t < |s.ops| && d <= k <= |txns|
    && (!s.ops[t].Open? ==> pend == map[])
    && Stands(LogMachine.Durable(L, s), Before(v0, txns, d))
    && Sees(LogMachine.Current(L, s), Before(v0, txns, k), pend)
  }

  lemma SeesNow(img: Image, v: Vol)
    requires Stands(img, v)
    ensures Sees(img, v, map[])
  {
    assert img + map[] == img;
  }

  lemma SeesOnly(img: Image, v: Vol)
    requires Sees(img, v, map[])
    ensures Stands(img, v)
  {
    hide Stands;
    var base: Image :| Stands(base, v) && img == base + map[];
    assert base + map[] == base;
  }

  lemma SeesWrite(img: Image, v: Vol, pend: Image, b: nat, data: Block)
    requires Sees(img, v, pend)
    ensures Sees(img[b := data], v, pend[b := data])
  {
    hide Stands;
    var base: Image :| Stands(base, v) && img == base + pend;
    assert img[b := data] == base + pend[b := data];
  }

  lemma SeesEnd(img: Image, u: Vol, t: Txn, pend: Image, i: nat)
    requires Sees(img, u, pend) && Through(u, {}, t.v, t.logged, i) && Complete(pend, t)
    ensures Sees(img, t.v, map[])
  {
    var base: Image :| Stands(base, u) && img == base + pend;
    CompleteStands(base, u, t, pend, i);
    SeesNow(img, t.v);
  }

  /** When the header is written nothing is open. */
  lemma HeaderMeansClosed(L: RedoLog.Layout, s: LogMachine.State, t: nat)
    requires LogMachine.Inv(L, s) && LogMachine.Enabled(L, s, LogMachine.WriteHeader) && t < |s.ops|
    ensures !s.ops[t].Open?
  {
    if s.ops[t].Open? { LogMachine.OpenMeansRunning(L, s, t); }
  }

  /** Who is in a transaction after a step. */
  lemma OpenAfter(L: RedoLog.Layout, s: LogMachine.State, step: LogMachine.Step, s': LogMachine.State, t: nat)
    requires LogMachine.Follows(L, s, step, s') && t < |s.ops| && !step.Crash?
    ensures |s'.ops| == |s.ops|
    ensures !s'.ops[t].Open? ==> !s.ops[t].Open? || step == LogMachine.End(t)
    ensures step.Begin? && step.t == t ==> !s.ops[t].Open?
    ensures step.Write? && step.t == t ==> s.ops[t].Open? && s'.ops[t].Open?
  {
  }

  lemma SoundStep(L: RedoLog.Layout, t: nat, v0: Vol, txns: seq<Txn>, i: nat, s: LogMachine.State,
                  step: LogMachine.Step, s': LogMachine.State, k: nat, pend: Image, k': nat, pend': Image, d: nat)
    returns (d': nat)
    requires L.size > RedoLog.LOGSIZE && Chained(v0, txns, i) && Sound(L, t, v0, txns, s, k, pend, d)
    requires LogMachine.Follows(L, s, step, s') && Client(step, t, txns, k, pend, k', pend')
    ensures Sound(L, t, v0, txns, s', k', pend', d')
  {
    hide LogMachine.Inv, LogMachine.Durable, LogMachine.Current, Stands, Sees, Through, Complete, LogMachine.Enabled,
         LogMachine.Next;
    LogMachine.StepRefines(L, s, step);
    OpenAfter(L, s, step, s', t);
    d' := d;
    match step
    case Write(x, b, data) => SeesWrite(LogMachine.Current(L, s), Before(v0, txns, k), pend, b, data);
    case End(x) =>
      if x == t {
        assert Through(Before(v0, txns, k), {}, txns[k].v, txns[k].logged, i);
        SeesEnd(LogMachine.Current(L, s), Before(v0, txns, k), txns[k], pend, i);
      }
    case WriteHeader =>
      HeaderMeansClosed(L, s, t);
      SeesOnly(LogMachine.Current(L, s), Before(v0, txns, k));
      d' := k;
    case _ =>
  }

  lemma DiskIsValid(L: RedoLog.Layout, s: LogMachine.State)
    requires LogMachine.Inv(L, s)
    ensures RedoLog.ValidDisk(L, s.disk)
  {
  }

  lemma {:induction false} DrivenSound(L: RedoLog.Layout, t: nat, v0: Vol, txns: seq<Txn>, i: nat, r: Trace,
                                       j: nat) returns (d: nat)
    requires L.size > RedoLog.LOGSIZE && Chained(v0, txns, i) && Driven(L, t, v0, txns, r) && j < |r.states|
    ensures Sound(L, t, v0, txns, r.states[j], r.ks[j], r.pends[j], d)
  {
    hide LogMachine.Inv, LogMachine.Durable, LogMachine.Current, Stands, Sees, Chained, LogMachine.Follows, Client;
    if j == 0 {
      DiskIsValid(L, r.states[0]);
      SeesNow(LogMachine.Current(L, r.states[0]), v0);
      d := 0;
    } else {
      d := DrivenSound(L, t, v0, txns, i, r, j - 1);
      assert Goes(L, t, txns, r, j - 1);
      hide Sound;
      d := SoundStep(L, t, v0, txns, i, r.states[j - 1], r.steps[j - 1], r.states[j], r.ks[j - 1], r.pends[j - 1],
                     r.ks[j], r.pends[j], d);
    }
  }

  // ---- what recovery leaves ------------------------------------------------------------------

  lemma TransactionsChain(v0: Vol, w0: map<nat, (nat, nat)>, i: nat, off: nat, src: Source, txns: seq<Txn>)
    requires Transactions(v0, w0, i, off, src, txns) && src.reach >= |src.bytes|
    ensures Chained(v0, txns, i)
  {
    hide WriteAt, Through;
    forall k: nat | k < |txns| ensures Through(Before(v0, txns, k), {}, txns[k].v, txns[k].logged, i) {
      assert Transaction(v0, w0, i, off, src, Before(v0, txns, k), txns[k]);
    }
  }

  /** How many bytes the first d transactions have written. */
  ghost function Upto(txns: seq<Txn>, d: nat): nat
    requires d <= |txns|
  {
    if d == 0 then 0 else txns[d - 1].upto
  }

  ghost function OwnersAfter(w0: map<nat, (nat, nat)>, txns: seq<Txn>, d: nat): map<nat, (nat, nat)>
    requires d <= |txns|
  {
    if d == 0 then w0 else txns[d - 1].w
  }

  /** The volume after d transactions of a filewrite. */
  lemma AfterSome(v0: Vol, w0: map<nat, (nat, nat)>, i: nat, off: nat, src: Source, txns: seq<Txn>, d: nat)
    requires Consistent(v0, w0) && i < |v0.inodes| && Transactions(v0, w0, i, off, src, txns) &&
             src.reach >= |src.bytes| && d <= |txns|
    ensures Consistent(Before(v0, txns, d), OwnersAfter(w0, txns, d))
    ensures WriteAt(v0, w0, Before(v0, txns, d), OwnersAfter(w0, txns, d), i, off, src.bytes, Upto(txns, d))
    ensures Upto(txns, d) == |src.bytes| || Upto(txns, d) % (3 * BSIZE) == 0
  {
    hide WriteAt, Through, Owns, NoHoles;
    if d == 0 {
      WriteStarts(v0, w0, i, off, src.bytes);
    } else {
      assert Transaction(v0, w0, i, off, src, Before(v0, txns, d - 1), txns[d - 1]);
    }
  }

  /** The splice so far, whatever the file was. */
  ghost predicate Spliced(v0: Vol, v: Vol, i: nat, off: nat, src: seq<Byte>, upto: nat) {
    && Shape(v0) && Shape(v) && i < |v0.inodes| == |v.inodes| && upto <= |src|
    && (forall i' :: 0 <= i' < |v.inodes| && i' != i ==> Contents(v, i') == Contents(v0, i'))
    && Contents(v, i) == if off <= v0.inodes[i].size then Splice(Contents(v0, i), off, src[..upto]) else Contents(v0, i)
  }

  lemma WriteIsSplice(v0: Vol, w0: map<nat, (nat, nat)>, v: Vol, w: map<nat, (nat, nat)>, i: nat, off: nat,
                      src: seq<Byte>, upto: nat)
    requires WriteAt(v0, w0, v, w, i, off, src, upto)
    ensures Spliced(v0, v, i, off, src, upto)
  {
    hide Contents, BlockNeeds.Charged, Shape;
    if upto == 0 && off <= v0.inodes[i].size { NoSplice(Contents(v0, i), off, src[..upto]); }
  }

  lemma NoSplice(c: seq<Byte>, off: nat, d: seq<Byte>)
    requires off <= |c| && d == []
    ensures Splice(c, off, d) == c
  {
  }

  lemma SameFiles(v0: Vol, v: Vol, u: Vol, i: nat, off: nat, src: seq<Byte>, upto: nat)
    requires Spliced(v0, v, i, off, src, upto) && Shape(u) && |u.inodes| == |v.inodes|
    requires forall i' :: 0 <= i' < |v.inodes| ==> Contents(u, i') == Contents(v, i')
    ensures Spliced(v0, u, i, off, src, upto)
  {
    hide Contents, Shape;
  }

  /** A filewrite, as FileSystem.Fs.Filewrite makes it, over a log with more than LOGSIZE blocks:
      if the machine crashes now, in state j of the run, then the disk that recovery leaves
      holds every file as it was before the write, but for this one, into which the first
      `upto` bytes have been spliced, and these are whole chunks. */
  lemma CrashLeavesChunks(L: RedoLog.Layout, t: nat, v0: Vol, w0: map<nat, (nat, nat)>, i: nat, off: nat, src: Source,
                          txns: seq<Txn>, r: Trace, j: nat)
    returns (d: nat)
    requires L.size > RedoLog.LOGSIZE && Consistent(v0, w0) && i < |v0.inodes| && src.reach >= |src.bytes|
    requires Transactions(v0, w0, i, off, src, txns) && Driven(L, t, v0, txns, r) && j < |r.states|
    ensures d <= r.ks[j] <= |txns| && (Upto(txns, d) == |src.bytes| || Upto(txns, d) % (3 * BSIZE) == 0)
    ensures RedoLog.ValidDisk(L, r.states[j].disk)
    ensures forall i': nat :: i' < |v0.inodes| ==> v0.sb.InodeBlock(i') in LogMachine.Durable(L, r.states[j])
    ensures Spliced(v0, VolumeIn(LogMachine.Durable(L, r.states[j]), v0.sb, |v0.inodes|), i, off, src.bytes,
                    Upto(txns, d))
  {
    hide LogMachine.Inv, LogMachine.Durable, LogMachine.Current, Stands, Sees, Driven, Transactions, Chained,
         Consistent, WriteAt, VolumeIn, Spliced;
    TransactionsChain(v0, w0, i, off, src, txns);
    d := DrivenSound(L, t, v0, txns, i, r, j);
    DiskIsValid(L, r.states[j]);
    AfterSome(v0, w0, i, off, src, txns, d);
    var v, w, img := Before(v0, txns, d), OwnersAfter(w0, txns, d), LogMachine.Durable(L, r.states[j]);
    WriteIsSplice(v0, w0, v, w, i, off, src.bytes, Upto(txns, d));
    SameSuper(v0, w0, i, off, src, txns, d);
    InodesThere(img, v);
    ReadsFiles(v0, img, v, w, i, off, src.bytes, Upto(txns, d));
  }

  lemma InodesThere(img: Image, v: Vol)
    requires Stands(img, v)
    ensures forall i: nat :: i < |v.inodes| ==> v.sb.InodeBlock(i) in img
  {
  }

  lemma {:induction false} SameSuper(v0: Vol, w0: map<nat, (nat, nat)>, i: nat, off: nat, src: Source, txns: seq<Txn>,
                                     d: nat)
    requires Transactions(v0, w0, i, off, src, txns) && src.reach >= |src.bytes| && d <= |txns|
    ensures Before(v0, txns, d).sb == v0.sb && |Before(v0, txns, d).inodes| == |v0.inodes|
  {
    hide WriteAt, Through, Consistent;
    if d > 0 {
      SameSuper(v0, w0, i, off, src, txns, d - 1);
      assert Transaction(v0, w0, i, off, src, Before(v0, txns, d - 1), txns[d - 1]);
      ThroughMeta(Before(v0, txns, d - 1), txns[d - 1].v, txns[d - 1].logged, i);
    }
  }

  lemma ThroughMeta(u: Vol, v: Vol, log: set<nat>, i: nat)
    requires Through(u, {}, v, log, i)
    ensures v.sb == u.sb && |v.inodes| == |u.inodes|
  {
  }

  lemma ReadsFiles(v0: Vol, img: Image, v: Vol, w: map<nat, (nat, nat)>, i: nat, off: nat, src: seq<Byte>, upto: nat)
    requires Spliced(v0, v, i, off, src, upto) && Stands(img, v) && Consistent(v, w)
    requires forall i: nat :: i < |v.inodes| ==> v.sb.InodeBlock(i) in img
    ensures Spliced(v0, VolumeIn(img, v.sb, |v.inodes|), i, off, src, upto)
  {
    var u := VolumeIn(img, v.sb, |v.inodes|);
    assert Shape(u) && |u.inodes| == |v.inodes| by {
      hide Spliced, Consistent;
      assert Shape(v) by { OwnsShape(v, w); }
      ReadsInodes(img, v);
    }
    hide Stands, Consistent, VolumeIn, Spliced, Contents, Shape;
    forall i' | 0 <= i' < |v.inodes| ensures Contents(u, i') == Contents(v, i') {
      ReadsContents(img, v, w, i');
    }
    SameFiles(v0, v, u, i, off, src, upto);
  }
}
