/** Suspending a process into a file and resuming it from there (ksuspend, kresume and
    loadseg: kernel/proc.c:25-51, 740-885), on the address spaces of kernel/vm.c and the
    files of kernel/fs.c. */
module Hibernate {
  import opened PageTable
  import opened TableSteps
  import opened PhysicalMemory
  import opened Paging
  import opened Mapping
  import opened UserSpace
  import opened UserCopy
  import Blocks
  import Volume
  import VolumeProofs
  import BlockNeeds
  import Files
  import FileSystem

  // ---- the image ------------------------------------------------------------------

  /** The k low-order bytes of n, least significant first. */
  function Le(n: nat, k: nat): (s: seq<Byte>)
    ensures |s| == k
    decreases k
  {
    if k == 0 then [] else [n % 256] + Le(n / 256, k - 1)
  }

  function FromLe(s: seq<Byte>): nat {
    if s == [] then 0 else s[0] as int + 256 * FromLe(s[1..])
  }

  function Pow256(k: nat): nat { if k == 0 then 1 else 256 * Pow256(k - 1) }

  lemma {:induction false} LeRoundTrip(n: nat, k: nat)
    requires n < Pow256(k)
    ensures FromLe(Le(n, k)) == n
    decreases k
  {
    if k > 0 {
      assert n / 256 < Pow256(k - 1);
      LeRoundTrip(n / 256, k - 1);
    }
  }

  /** struct header (kernel/proc.h:109-115): a name of 16 bytes and four ints. */
  datatype Header = Header(name: seq<Byte>, memSz: nat, stackSz: nat, codeSz: nat, tracing: nat)

  const HDR: nat := 32

  ghost predicate HeaderOk(h: Header) {
    |h.name| == 16 && h.memSz < Blocks.UINT_LIMIT && h.stackSz < Blocks.UINT_LIMIT && h.codeSz < Blocks.UINT_LIMIT &&
    h.tracing < Blocks.UINT_LIMIT
  }

  function HeaderBytes(h: Header): (s: seq<Byte>)
    requires |h.name| == 16
    ensures |s| == HDR
  {
    h.name + Le(h.memSz, 4) + Le(h.stackSz, 4) + Le(h.codeSz, 4) + Le(h.tracing, 4)
  }

  function ReadHeader(s: seq<Byte>): Header
    requires |s| == HDR
  {
    Header(s[..16], FromLe(s[16..20]), FromLe(s[20..24]), FromLe(s[24..28]), FromLe(s[28..32]))
  }

  lemma HeaderRoundTrip(h: Header)
    requires HeaderOk(h)
    ensures ReadHeader(HeaderBytes(h)) == h
  {
    assert Pow256(4) == Blocks.UINT_LIMIT;
    LeRoundTrip(h.memSz, 4);
    LeRoundTrip(h.stackSz, 4);
    LeRoundTrip(h.codeSz, 4);
    LeRoundTrip(h.tracing, 4);
    var s := HeaderBytes(h);
    assert s[..16] == h.name && s[16..20] == Le(h.memSz, 4) && s[20..24] == Le(h.stackSz, 4);
    assert s[24..28] == Le(h.codeSz, 4) && s[28..32] == Le(h.tracing, 4);
  }

  /** struct trapframe: 36 saved registers of 64 bits; a0 is number 14. */
  const REGS: nat := 36
  const A0: nat := 14

  function FrameBytes(tf: seq<nat>): (s: seq<Byte>)
    ensures |s| == 8 * |tf|
  {
    if tf == [] then [] else Le(tf[0], 8) + FrameBytes(tf[1..])
  }

  function ReadFrame(s: seq<Byte>, n: nat): (tf: seq<nat>)
    requires |s| == 8 * n
    ensures |tf| == n
    decreases n
  {
    if n == 0 then [] else [FromLe(s[..8])] + ReadFrame(s[8..], n - 1)
  }

  lemma {:induction false} FrameRoundTrip(tf: seq<nat>)
    requires forall i :: 0 <= i < |tf| ==> tf[i] < U64
    ensures ReadFrame(FrameBytes(tf), |tf|) == tf
  {
    hide Le, FromLe, Pow256;
    if tf != [] {
      Pow8();
      LeRoundTrip(tf[0], 8);
      FrameRoundTrip(tf[1..]);
      ReadFirst(Le(tf[0], 8), FrameBytes(tf[1..]), |tf|);
      assert [tf[0]] + tf[1..] == tf;
    }
  }

  lemma ReadFirst(a: seq<Byte>, b: seq<Byte>, n: nat)
    requires |a| == 8 && n > 0 && |b| == 8 * (n - 1)
    ensures ReadFrame(a + b, n) == [FromLe(a)] + ReadFrame(b, n - 1)
  {
    hide FromLe;
    assert (a + b)[..8] == a && (a + b)[8..] == b;
  }

  lemma Pow8()
    ensures Pow256(8) == U64
  {
    assert Pow256(4) == 0x1_0000_0000;
  }

  ghost predicate FrameOk(tf: seq<nat>) {
    |tf| == REGS && forall i :: 0 <= i < |tf| ==> tf[i] < U64
  }

  /** What ksuspend writes: header, registers, code and data, stack. */
  ghost function Picture(h: Header, tf: seq<nat>, code: seq<Byte>, stack: seq<Byte>): seq<Byte>
    requires |h.name| == 16
  {
    HeaderBytes(h) + FrameBytes(tf) + code + stack
  }

  /** What ksuspend writes for a process of n pages: all pages below the last two as code and
      data, and the last one as the stack. */
  ghost function PictureOf(tab: Tables, mem: Bytes, root: nat, n: nat, tf: seq<nat>, name: seq<Byte>,
                           tracing: nat): seq<Byte>
    requires n >= 2 && |name| == 16
  {
    Picture(HeaderOf(n, name, tracing), tf, BytesAt(tab, mem, root, 0, (n - 2) * PGSIZE),
            BytesAt(tab, mem, root, (n - 1) * PGSIZE, PGSIZE))
  }

  function HeaderOf(n: nat, name: seq<Byte>, tracing: nat): Header
    requires n >= 2
  {
    Header(name, n * PGSIZE, PGSIZE, (n - 2) * PGSIZE, tracing)
  }

  function PictureSize(n: nat): nat
    requires n >= 1
  {
    HDR + 8 * REGS + (n - 1) * PGSIZE
  }

  lemma PictureLength(tab: Tables, mem: Bytes, root: nat, n: nat, tf: seq<nat>, name: seq<Byte>, tracing: nat)
    requires n >= 2 && |name| == 16 && |tf| == REGS
    ensures |PictureOf(tab, mem, root, n, tf, name, tracing)| == PictureSize(n)
  {
  }

  /** The largest process that a file can hold. */
  lemma PictureFits(n: nat)
    requires n >= 1
    ensures PictureSize(n) <= Volume.MAXBYTES <==> n <= 67
  {
  }

  // ---- suspending -------------------------------------------------------------------

  /** As exec leaves it: n pages, all accessible but the guard page below the stack page. */
  ghost predicate ExecLayout(tab: Tables, root: nat, n: nat) {
    2 <= n <= MAXVPN && forall v: nat :: v < n && v != n - 2 ==> UserPage(tab, root, v)
  }

  lemma ExecAccess(tab: Tables, root: nat, n: nat)
    requires ExecLayout(tab, root, n)
    ensures Accessible(tab, root, 0, (n - 2) * PGSIZE) && Accessible(tab, root, (n - 1) * PGSIZE, PGSIZE)
  {
    forall x: nat | x < (n - 2) * PGSIZE ensures UserPage(tab, root, x / PGSIZE) {
      assert x / PGSIZE < n - 2;
    }
    forall x: nat | (n - 1) * PGSIZE <= x < (n - 1) * PGSIZE + PGSIZE ensures UserPage(tab, root, x / PGSIZE) {
      assert x / PGSIZE == n - 1;
    }
  }

  type Slots = map<nat, (nat, nat)>

  /** Of the bytes handed to filewrite from offset off on, the first done are in the file, and
      if that is not all of them then the next chunk was out of bounds. */
  ghost predicate Saved(v0: Volume.Vol, w0: Slots, v: Volume.Vol, w: Slots, i: nat, off: nat, bytes: seq<Byte>,
                        done: nat) {
    && FileSystem.WriteAt(v0, w0, v, w, i, off, bytes, done)
    && (done < |bytes| ==> Refused(v0, i, off, |bytes|, done))
  }

  ghost predicate Refused(v: Volume.Vol, i: nat, off: nat, n: nat, done: nat)
    requires i < |v.inodes| && done <= n
  {
    off > v.inodes[i].size || off + done + FileSystem.Min(n - done, 3 * Blocks.BSIZE) > Volume.MAXBYTES
  }

  lemma SavedNothing(v: Volume.Vol, w: Slots, i: nat, off: nat)
    requires Volume.Owns(v, w) && i < |v.inodes|
    ensures Saved(v, w, v, w, i, off, [], 0)
  {
    FileSystem.WriteStarts(v, w, i, off, []);
  }

  /** The next write, after writes that all went through. */
  lemma SavedOn(v0: Volume.Vol, w0: Slots, u: Volume.Vol, uw: Slots, v: Volume.Vol, w: Slots, i: nat, off: nat,
                a: seq<Byte>, b: seq<Byte>, j: nat)
    requires Saved(v0, w0, u, uw, i, off, a, |a|) && FileSystem.WriteAt(u, uw, v, w, i, off + |a|, b, j)
    requires off + |a| <= u.inodes[i].size && j < |b| ==>
               off + |a| + j + FileSystem.Min(|b| - j, 3 * Blocks.BSIZE) > Volume.MAXBYTES
    ensures Saved(v0, w0, v, w, i, off, a + b, |a| + j)
  {
    hide FileSystem.WriteAt;
    FileSystem.WriteOn(v0, w0, u, uw, v, w, i, off, a, b, j);
    SizeAfter(v0, w0, u, uw, i, off, a, |a|);
  }

  /** Where the file ends while it is written. */
  lemma SizeAfter(v0: Volume.Vol, w0: Slots, u: Volume.Vol, uw: Slots, i: nat, off: nat, a: seq<Byte>, done: nat)
    requires FileSystem.WriteAt(v0, w0, u, uw, i, off, a, done)
    ensures i < |v0.inodes| == |u.inodes| && done <= |a|
    ensures off + done <= u.inodes[i].size <==> off <= v0.inodes[i].size
    ensures done > 0 ==> FileSystem.WriteFits(v0, i, off, done)
  {
    assert |Files.Contents(u, i)| == u.inodes[i].size && |Files.Contents(v0, i)| == v0.inodes[i].size;
    hide BlockNeeds.Charged, Files.Contents;
  }

  /** Once a write has been cut short, a longer one gets nowhere. */
  lemma SavedNoMore(v0: Volume.Vol, w0: Slots, u: Volume.Vol, uw: Slots, v: Volume.Vol, w: Slots, i: nat, off: nat,
                    a: seq<Byte>, done: nat, b: seq<Byte>, j: nat)
    requires Saved(v0, w0, u, uw, i, off, a, done) && done < |a|
    requires FileSystem.WriteAt(u, uw, v, w, i, off + done, b, j)
    requires j == 0 || j >= FileSystem.Min(|b|, 3 * Blocks.BSIZE)
    requires b == [] || FileSystem.Min(|b|, 3 * Blocks.BSIZE) >= FileSystem.Min(|a|, 3 * Blocks.BSIZE)
    ensures j == 0 && Saved(v0, w0, v, w, i, off, a + b, done)
  {
    hide FileSystem.WriteAt;
    SizeAfter(v0, w0, u, uw, i, off, a, done);
    SizeAfter(u, uw, v, w, i, off + done, b, j);
    assert j == 0;
    FileSystem.WriteLonger(v0, w0, u, uw, v, w, i, off, a, done, b);
  }

  /** filewrite, as the next of several: v0 is the volume before the first one. */
  method Append(fs: FileSystem.Fs, i: nat, end: nat, src: FileSystem.Source, ghost whole: bool,
                ghost v0: Volume.Vol, ghost w0: Slots, ghost off: nat, ghost a: seq<Byte>, ghost done: nat)
    returns (ok: bool, end': nat, ghost done': nat)
    requires fs.Valid() && i < |fs.v.inodes| && |src.bytes| < Blocks.UINT_LIMIT && end < Blocks.UINT_LIMIT
    requires Volume.Owns(v0, w0)
    requires whole ==> Saved(v0, w0, fs.v, fs.w, i, off, a, done) && end == off + done
    requires src.bytes == [] || FileSystem.Min(|src.bytes|, 3 * Blocks.BSIZE) >= FileSystem.Min(|a|, 3 * Blocks.BSIZE)
    modifies fs
    ensures ok ==> fs.Valid() && |fs.v.inodes| == |old(fs.v).inodes| && end <= end' < Blocks.UINT_LIMIT
    ensures ok ==> FileSystem.KeepsBelow(old(fs.v), fs.v, i, end)
    ensures !ok ==> BlockNeeds.AllMarked(fs.v)
    ensures whole && src.reach >= |src.bytes| && ok ==>
              Saved(v0, w0, fs.v, fs.w, i, off, a + src.bytes, done') && end' == off + done'
    ensures whole && src.reach >= |src.bytes| && !ok ==> Short(v0, w0, i, off, |a| + |src.bytes|)
  {
    hide Volume.Owns, Saved, FileSystem.WriteAt, FileSystem.KeepsBelow, BlockNeeds.AllMarked, Files.NoHoles,
         Files.Contents, BlockNeeds.Unmarked, BlockNeeds.BlocksFor, FileSystem.Span;
    ghost var u, uw := fs.v, fs.w;
    var r;
    ghost var k, ops;
    r, end', k, ops := fs.Filewrite(i, end, src);
    ok := r.Val?;
    done' := done + k;
    if whole && src.reach >= |src.bytes| {
      if ok {
        SavedNext(v0, w0, u, uw, fs.v, fs.w, i, off, a, done, src.bytes, k);
      } else {
        SavedStop(v0, w0, u, uw, i, off, a, done, |src.bytes|);
      }
    }
  }

  /** If n bytes at off are within bounds, the volume has too few free blocks for them. */
  ghost predicate Short(v: Volume.Vol, w: Slots, i: nat, off: nat, n: nat) {
    Volume.Shape(v) && i < |v.inodes| &&
    (FileSystem.WriteFits(v, i, off, n) ==> |BlockNeeds.Unmarked(v)| < BlocksNeeded(v, i, off, n))
  }

  /** The blocks that n bytes at off lack. */
  ghost function BlocksNeeded(v: Volume.Vol, i: nat, off: nat, n: nat): nat
    requires Volume.Shape(v) && i < |v.inodes|
  {
    BlockNeeds.BlocksFor(v, i, off / Blocks.BSIZE, FileSystem.Span(off, n))
  }

  lemma SavedNext(v0: Volume.Vol, w0: Slots, u: Volume.Vol, uw: Slots, v: Volume.Vol, w: Slots, i: nat, off: nat,
                  a: seq<Byte>, done: nat, b: seq<Byte>, j: nat)
    requires Saved(v0, w0, u, uw, i, off, a, done) && FileSystem.WriteAt(u, uw, v, w, i, off + done, b, j)
    requires off + done <= u.inodes[i].size && j < |b| ==>
               off + done + j + FileSystem.Min(|b| - j, 3 * Blocks.BSIZE) > Volume.MAXBYTES
    requires j == 0 || j >= FileSystem.Min(|b|, 3 * Blocks.BSIZE)
    requires b == [] || FileSystem.Min(|b|, 3 * Blocks.BSIZE) >= FileSystem.Min(|a|, 3 * Blocks.BSIZE)
    ensures Saved(v0, w0, v, w, i, off, a + b, done + j)
  {
    hide FileSystem.WriteAt;
    if done == |a| {
      SavedOn(v0, w0, u, uw, v, w, i, off, a, b, j);
    } else {
      SizeAfter(v0, w0, u, uw, i, off, a, done);
      SavedNoMore(v0, w0, u, uw, v, w, i, off, a, done, b, j);
    }
  }

  lemma SavedStop(v0: Volume.Vol, w0: Slots, u: Volume.Vol, uw: Slots, i: nat, off: nat, a: seq<Byte>, done: nat,
                  n: nat)
    requires Saved(v0, w0, u, uw, i, off, a, done) && Volume.Owns(v0, w0) && Volume.Owns(u, uw)
    requires |BlockNeeds.Unmarked(u)| < BlocksNeeded(u, i, off + done, n)
    ensures Short(v0, w0, i, off, |a| + n)
  {
    hide FileSystem.WriteAt, Volume.Owns, BlockNeeds.Unmarked, BlockNeeds.BlocksFor, FileSystem.Span, Volume.Shape;
    VolumeProofs.OwnsShape(v0, w0);
    VolumeProofs.OwnsShape(u, uw);
    SizeAfter(v0, w0, u, uw, i, off, a, done);
    if FileSystem.WriteFits(v0, i, off, |a| + n) {
      assert done == |a|;
      FileSystem.WriteOnStop(v0, w0, u, uw, i, off, a, n);
    }
  }

  lemma ShortGrows(v: Volume.Vol, w: Slots, i: nat, off: nat, k: nat, n: nat)
    requires Short(v, w, i, off, k) && k <= n
    ensures Short(v, w, i, off, n)
  {
    FileSystem.SpanGrows(off, k, n);
    BlockNeeds.BlocksGrow(v, i, off / Blocks.BSIZE, FileSystem.Span(off, k), FileSystem.Span(off, n));
    hide BlockNeeds.Unmarked, BlockNeeds.BlocksFor, FileSystem.Span;
  }

  /** What is in the file after all writes, and when that is everything. */
  lemma SavedMeans(v0: Volume.Vol, w0: Slots, v: Volume.Vol, w: Slots, i: nat, off: nat, p: seq<Byte>, done: nat)
    requires Saved(v0, w0, v, w, i, off, p, done) && Volume.Owns(v0, w0) && Volume.Owns(v, w) &&
             off <= v0.inodes[i].size && p != []
    ensures done == |p| <==> off + |p| <= Volume.MAXBYTES
    ensures Files.Contents(v, i) == Files.Splice(Files.Contents(v0, i), off, p[..done])
    ensures done == |p| ==> |BlockNeeds.Unmarked(v0)| >= BlocksNeeded(v0, i, off, |p|)
  {
    SizeAfter(v0, w0, v, w, i, off, p, done);
    if done == |p| {
      BlockNeeds.ChargedBlocks(v0, w0, v, w, i, off / Blocks.BSIZE, FileSystem.Span(off, done));
    }
    hide Volume.Owns, BlockNeeds.Charged, Files.Contents, Files.Splice, BlockNeeds.Unmarked, BlockNeeds.BlocksFor,
         FileSystem.Span;
    if done == 0 { SpliceNone(Files.Contents(v0, i), off, p[..done]); }
  }

  lemma SpliceNone(c: seq<Byte>, off: nat, d: seq<Byte>)
    requires off <= |c| && d == []
    ensures Files.Splice(c, off, d) == c
  {
  }

  lemma HeadSaved(v0: Volume.Vol, w0: Slots, v: Volume.Vol, w: Slots, i: nat, off: nat, p: seq<Byte>, done: nat)
    requires Saved(v0, w0, v, w, i, off, p, done) && Volume.Owns(v0, w0) && Volume.Owns(v, w) && p != []
    requires FileSystem.WriteFits(v0, i, off, |p|)
    ensures done == |p| && ReadsAs(Files.Contents(v, i), off, p)
  {
    SavedMeans(v0, w0, v, w, i, off, p, done);
    hide Files.Contents, Saved, Volume.Owns;
    assert p[..done] == p;
  }

  lemma HeadKept(u: Volume.Vol, v: Volume.Vol, i: nat, end: nat, off: nat, p: seq<Byte>)
    requires FileSystem.KeepsBelow(u, v, i, end) && ReadsAs(Files.Contents(u, i), off, p) && off + |p| <= end
    ensures ReadsAs(Files.Contents(v, i), off, p)
  {
    var c, d := Files.Contents(u, i), Files.Contents(v, i);
    hide Files.Contents;
    if end <= |c| {
      assert c[..end][off..off + |p|] == c[off..off + |p|] && d[..end][off..off + |p|] == d[off..off + |p|];
    }
  }

  ghost predicate ReadsAs(data: seq<Byte>, at: nat, bytes: seq<Byte>) {
    at + |bytes| <= |data| && data[at..at + |bytes|] == bytes
  }

  /** What copyin got of len bytes of user memory. */
  function Got(bytes: seq<Byte>, len: nat): (s: FileSystem.Source)
    requires |bytes| <= len
    ensures |s.bytes| == len && (s.reach >= len <==> |bytes| == len) && (|bytes| == len ==> s.bytes == bytes)
  {
    FileSystem.Source(bytes + seq(len - |bytes|, _ => 0), |bytes|)
  }

  /** The int fields of the header hold sizes below 2^31. */
  const INT_LIMIT: nat := 0x8000_0000

  /** ksuspend, once the victim is found (kernel/proc.c:760-773); the results of filewrite are
      ignored there, and only a panic stops it. For a process as exec leaves it, the file then
      holds the picture of the process from off on, as far as a file can reach; the disk is
      full exactly when the free blocks do not cover the blocks that the file lacks. For any
      other process at least the header and the registers are as they should be. */
  method KSuspend(m: Memory, root: nat, n: nat, tf: seq<nat>, name: seq<Byte>, tracing: nat,
                  fs: FileSystem.Fs, i: nat, off: nat)
    returns (ok: bool, ghost done: nat)
    requires m.Valid() && IsRoot(m.w, root) && 2 <= n && n * PGSIZE < INT_LIMIT && FrameOk(tf) && |name| == 16
    requires fs.Valid() && i < |fs.v.inodes| && off < Blocks.UINT_LIMIT
    modifies fs
    ensures ok ==> fs.Valid() && |fs.v.inodes| == |old(fs.v).inodes|
    ensures ok ==> forall i' :: 0 <= i' < |fs.v.inodes| && i' != i ==>
              Files.Contents(fs.v, i') == old(Files.Contents(fs.v, i'))
    ensures ok && FileSystem.WriteFits(old(fs.v), i, off, HDR + 8 * REGS) ==>
              ReadsAs(Files.Contents(fs.v, i), off, HeaderBytes(HeaderOf(n, name, tracing)) + FrameBytes(tf))
    ensures !ok ==> BlockNeeds.AllMarked(fs.v)
    ensures ExecLayout(m.tab, root, n) && off <= old(fs.v).inodes[i].size && ok ==>
              && (done == PictureSize(n) <==> off + PictureSize(n) <= Volume.MAXBYTES)
              && done <= PictureSize(n) == |PictureOf(m.tab, m.mem, root, n, tf, name, tracing)|
              && Files.Contents(fs.v, i) == Files.Splice(old(Files.Contents(fs.v, i)), off,
                                                         PictureOf(m.tab, m.mem, root, n, tf, name, tracing)[..done])
    ensures ExecLayout(m.tab, root, n) && FileSystem.WriteFits(old(fs.v), i, off, PictureSize(n)) ==>
              (ok <==> |BlockNeeds.Unmarked(old(fs.v))| >= BlocksNeeded(old(fs.v), i, off, PictureSize(n)))
  {
    ghost var v0, w0 := fs.v, fs.w;
    var h, t := HeaderBytes(HeaderOf(n, name, tracing)), FrameBytes(tf);
    ok, done := SaveParts(m, root, n, h, t, fs, i, off);
    if ExecLayout(m.tab, root, n) {
      ghost var p := PictureOf(m.tab, m.mem, root, n, tf, name, tracing);
      PictureLength(m.tab, m.mem, root, n, tf, name, tracing);
      if ok && off <= v0.inodes[i].size {
        SavedMeans(v0, w0, fs.v, fs.w, i, off, p, done);
      }
    }
  }

  ghost function Parts(tab: Tables, mem: Bytes, root: nat, n: nat, h: seq<Byte>, t: seq<Byte>): seq<Byte>
    requires n >= 2
  {
    h + t + BytesAt(tab, mem, root, 0, (n - 2) * PGSIZE) + BytesAt(tab, mem, root, (n - 1) * PGSIZE, PGSIZE)
  }

  ghost predicate OthersKept(v0: Volume.Vol, v: Volume.Vol, i: nat) {
    && Volume.Shape(v0) && Volume.Shape(v) && |v.inodes| == |v0.inodes|
    && forall i' :: 0 <= i' < |v.inodes| && i' != i ==> Files.Contents(v, i') == Files.Contents(v0, i')
  }

  lemma OthersMore(v0: Volume.Vol, u: Volume.Vol, v: Volume.Vol, i: nat, end: nat)
    requires OthersKept(v0, u, i) && FileSystem.KeepsBelow(u, v, i, end)
    ensures OthersKept(v0, v, i)
  {
    hide Files.Contents;
  }

  lemma OthersAll(v: Volume.Vol, w: Slots, i: nat)
    requires Volume.Owns(v, w)
    ensures OthersKept(v, v, i)
  {
  }

  /** The four writes. */
  method SaveParts(m: Memory, root: nat, n: nat, h: seq<Byte>, t: seq<Byte>, fs: FileSystem.Fs, i: nat, off: nat)
    returns (ok: bool, ghost done: nat)
    requires m.Valid() && IsRoot(m.w, root) && 2 <= n && n * PGSIZE < INT_LIMIT && |h| == HDR && |t| == 8 * REGS
    requires fs.Valid() && i < |fs.v.inodes| && off < Blocks.UINT_LIMIT
    modifies fs
    ensures ok ==> fs.Valid() && |fs.v.inodes| == |old(fs.v).inodes|
    ensures ok ==> OthersKept(old(fs.v), fs.v, i)
    ensures ok && FileSystem.WriteFits(old(fs.v), i, off, HDR + 8 * REGS) ==>
              ReadsAs(Files.Contents(fs.v, i), off, h + t)
    ensures !ok ==> BlockNeeds.AllMarked(fs.v)
    ensures ExecLayout(m.tab, root, n) && ok ==>
              Saved(old(fs.v), old(fs.w), fs.v, fs.w, i, off, Parts(m.tab, m.mem, root, n, h, t), done)
    ensures ExecLayout(m.tab, root, n) && !ok ==> Short(old(fs.v), old(fs.w), i, off, PictureSize(n))
  {
    hide Trees, FreeOk, Filled, IsRoot, Saved, Short, Volume.Owns, Files.NoHoles, Files.Contents, FileSystem.KeepsBelow,
         BlockNeeds.AllMarked, ExecLayout, OthersKept, ReadsAs, Accessible, BytesAt;
    ghost var v0, w0 := fs.v, fs.w;
    var end, len := off, (n - 2) * PGSIZE;
    SavedNothing(v0, w0, i, off);
    OthersAll(v0, w0, i);
    ok, end, done := Append(fs, i, end, FileSystem.Source(h, HDR), true, v0, w0, off, [], 0);
    assert [] + h == h;
    if !ok {
      ShortGrows(v0, w0, i, off, HDR, PictureSize(n));
      return;
    }
    ghost var v1, end1 := fs.v, end;
    OthersMore(v0, v0, v1, i, off);
    ok, end, done := Append(fs, i, end, FileSystem.Source(t, 8 * REGS), true, v0, w0, off, h, done);
    if !ok {
      ShortGrows(v0, w0, i, off, HDR + 8 * REGS, PictureSize(n));
      return;
    }
    ghost var v2, end2 := fs.v, end;
    OthersMore(v0, v1, v2, i, end1);
    ghost var fits := FileSystem.WriteFits(v0, i, off, HDR + 8 * REGS);
    if fits { HeadSaved(v0, w0, v2, fs.w, i, off, h + t, done); }
    ok, done := SaveUser(m, root, n, h + t, fs, i, end, v0, w0, off, done);
    if ok && fits {
      HeadKept(v2, fs.v, i, end2, off, h + t);
    }
    if ok { OthersMore(v0, v2, fs.v, i, end2); }
  }

  /** The two writes from user memory. */
  method SaveUser(m: Memory, root: nat, n: nat, ghost a: seq<Byte>, fs: FileSystem.Fs, i: nat, start: nat,
                  ghost v0: Volume.Vol, ghost w0: Slots, ghost off: nat, ghost done0: nat)
    returns (ok: bool, ghost done: nat)
    requires m.Valid() && IsRoot(m.w, root) && 2 <= n && n * PGSIZE < INT_LIMIT && |a| == HDR + 8 * REGS
    requires fs.Valid() && i < |fs.v.inodes| && start < Blocks.UINT_LIMIT && Volume.Owns(v0, w0)
    requires Saved(v0, w0, fs.v, fs.w, i, off, a, done0) && start == off + done0
    modifies fs
    ensures ok ==> fs.Valid() && |fs.v.inodes| == |old(fs.v).inodes| && FileSystem.KeepsBelow(old(fs.v), fs.v, i, start)
    ensures !ok ==> BlockNeeds.AllMarked(fs.v)
    ensures ExecLayout(m.tab, root, n) && ok ==>
              Saved(v0, w0, fs.v, fs.w, i, off,
                    a + BytesAt(m.tab, m.mem, root, 0, (n - 2) * PGSIZE) + BytesAt(m.tab, m.mem, root,
                      (n - 1) * PGSIZE, PGSIZE), done)
    ensures ExecLayout(m.tab, root, n) && !ok ==> Short(v0, w0, i, off, PictureSize(n))
  {
    hide Trees, FreeOk, Filled, IsRoot, Saved, Short, Volume.Owns, Files.NoHoles, FileSystem.KeepsBelow,
         BlockNeeds.AllMarked, ExecLayout, Accessible, BytesAt;
    var len := (n - 2) * PGSIZE;
    if ExecLayout(m.tab, root, n) { ExecAccess(m.tab, root, n); }
    var all, code := CopyIn(m, root, 0, len);
    var end;
    ghost var v2 := fs.v;
    ok, end, done := Append(fs, i, start, Got(code, len), true, v0, w0, off, a, done0);
    if !ok {
      if all { ShortGrows(v0, w0, i, off, HDR + 8 * REGS + len, PictureSize(n)); }
      return;
    }
    ghost var v3, end3 := fs.v, end;
    var top, stack := CopyIn(m, root, (n - 1) * PGSIZE, PGSIZE);
    ok, end, done := Append(fs, i, end, Got(stack, PGSIZE), all, v0, w0, off, a + code, done);
    if ok { KeepsLess(v2, v3, fs.v, i, start, end3); }
  }

  lemma KeepsLess(u: Volume.Vol, v: Volume.Vol, x: Volume.Vol, i: nat, a: nat, b: nat)
    requires FileSystem.KeepsBelow(u, v, i, a) && FileSystem.KeepsBelow(v, x, i, b) && a <= b
    ensures FileSystem.KeepsBelow(u, x, i, a)
  {
    hide Files.Contents;
    var c, d := Files.Contents(v, i), Files.Contents(x, i);
    if b <= |c| {
      assert c[..b][..a] == c[..a] && d[..b][..a] == d[..a];
    }
  }

  // ---- resuming --------------------------------------------------------------------

  /** The bytes of a file from `at` on, at most len of them. */
  function Avail(c: seq<Byte>, at: nat, len: nat): (s: seq<Byte>)
    ensures |s| <= len
  {
    if at > |c| then [] else c[at..if at + len <= |c| then at + len else |c|]
  }

  /** The same, with zeros where the file has ended. */
  function Padded(c: seq<Byte>, at: nat, len: nat): (s: seq<Byte>)
    ensures |s| == len
  {
    Avail(c, at, len) + seq(len - |Avail(c, at, len)|, _ => 0)
  }

  lemma PaddedWhole(c: seq<Byte>, at: nat, bytes: seq<Byte>)
    requires ReadsAs(c, at, bytes)
    ensures Avail(c, at, |bytes|) == bytes && Padded(c, at, |bytes|) == bytes
  {
  }

  lemma AvailPiece(c: seq<Byte>, at: nat, len: nat, k: nat, n: nat)
    requires k + n <= len && k <= |Avail(c, at, len)|
    ensures var s := Avail(c, at, len);
            Avail(c, at + k, n) == s[k..if k + n <= |s| then k + n else |s|]
  {
  }

  datatype Loaded = Whole | Cut | LoadPanic

  /** kernel/proc.c:29-49. loadseg puts the bytes of the file, as far as it has them, into the
      pages from va on, and nothing else changes; it reports a file that ends too early. It
      panics on an address that is not page-aligned, and on a page that is not there and that
      it gets to before the file ends. */
  method LoadSeg(m: Memory, root: nat, va: nat, fs: FileSystem.Fs, i: nat, offset: nat, sz: nat) returns (r: Loaded)
    requires m.Valid() && IsRoot(m.w, root) && fs.Valid() && i < |fs.v.inodes| && offset + sz < Blocks.UINT_LIMIT
    modifies m`mem, fs`v, fs`w, fs`logged
    ensures m.Valid() && fs.v == old(fs.v) && fs.w == old(fs.w) && fs.logged == old(fs.logged)
    ensures var got := Avail(Files.Contents(fs.v, i), offset, sz);
            && (r.LoadPanic? <==> va % PGSIZE != 0 || !Accessible(m.tab, root, va, FileSystem.Min(sz, |got| + 1)))
            && (!r.LoadPanic? ==>
                Stored(m.tab, old(m.mem), m.mem, Roots(m.w), root, va, got) && (r.Whole? <==> |got| == sz))
  {
    hide Trees, FreeOk, Filled, Stored, UserPage, Accessible, IsRoot, ByteAt, Pte, Page, Roots, Volume.Owns,
         Files.NoHoles, Files.Contents, Avail;
    if va % PGSIZE != 0 { return LoadPanic; }
    ghost var c := Files.Contents(fs.v, i);
    ghost var got := Avail(c, offset, sz);
    ghost var reach := FileSystem.Min(sz, |got| + 1);
    var k := 0;
    NothingStored(m.tab, m.mem, Roots(m.w), root, va);
    assert got[..0] == [];
    while k < sz
      invariant 0 <= k <= sz && k <= |got| && (k % PGSIZE == 0 || k == sz) && m.Valid()
      invariant fs.v == old(fs.v) && fs.w == old(fs.w) && fs.logged == old(fs.logged)
      invariant Accessible(m.tab, root, va, k)
      invariant Stored(m.tab, old(m.mem), m.mem, Roots(m.w), root, va, got[..k])
    {
      Aligned(va, k);
      var p := WalkAddr(m, root, (va + k) / PGSIZE);
      if p == 0 {
        NoAccess(m.tab, root, va, k, reach);
        return LoadPanic;
      }
      var n := if sz - k < PGSIZE then sz - k else PGSIZE;
      var full := LoadPage(m, root, va, p, fs, i, offset, sz, k, n, old(m.mem), got);
      MorePage(m.tab, root, va, k, n);
      if !full {
        LessAccess(m.tab, root, va, reach, k + n);
        return Cut;
      }
      Aligned(k, n);
      k := k + n;
    }
    LessAccess(m.tab, root, va, reach, k);
    assert got[..k] == got;
    r := Whole;
  }

  lemma MorePage(tab: Tables, root: nat, va: nat, k: nat, n: nat)
    requires Accessible(tab, root, va, k) && UserPage(tab, root, (va + k) / PGSIZE) && (va + k) % PGSIZE + n <= PGSIZE
    ensures Accessible(tab, root, va, k + n)
  {
    PageAccess(tab, root, va + k, n);
    MoreAccess(tab, root, va, k, n);
  }

  /** One turn of loadseg's loop: readi into the page. */
  method LoadPage(m: Memory, root: nat, ghost va: nat, p: nat, fs: FileSystem.Fs, i: nat, offset: nat, ghost sz: nat,
                  k: nat, n: nat, ghost mem: Bytes, ghost got: seq<Byte>)
    returns (full: bool)
    requires m.Valid() && IsRoot(m.w, root) && UserPage(m.tab, root, (va + k) / PGSIZE) && (va + k) % PGSIZE == 0
    requires p == Page(Pte(m.tab, root, (va + k) / PGSIZE)) && 0 < n <= PGSIZE && k + n <= sz &&
             offset + sz < Blocks.UINT_LIMIT
    requires fs.Valid() && i < |fs.v.inodes| && got == Avail(Files.Contents(fs.v, i), offset, sz) && k <= |got|
    requires Stored(m.tab, mem, m.mem, Roots(m.w), root, va, got[..k])
    modifies m`mem, fs`v, fs`w, fs`logged
    ensures m.Valid() && fs.v == old(fs.v) && fs.w == old(fs.w) && fs.logged == old(fs.logged)
    ensures full <==> k + n <= |got|
    ensures full ==> Stored(m.tab, mem, m.mem, Roots(m.w), root, va, got[..k + n])
    ensures !full ==> Stored(m.tab, mem, m.mem, Roots(m.w), root, va, got)
  {
    hide Trees, FreeOk, Stored, UserPage, IsRoot, ByteAt, Pte, Page, Volume.Owns, Files.NoHoles, Files.Contents,
         Avail, Roots;
    ghost var c := Files.Contents(fs.v, i);
    var ret, piece := fs.Readi(i, offset + k, n, n);
    ReadIsAvail(c, offset + k, n, ret, piece);
    AvailPiece(c, offset, sz, k, n);
    LoadPiece(m, root, va, p, k, piece, mem, got);
    full := ret == FileSystem.Val(n);
    assert !full ==> got[..k + |piece|] == got;
  }

  lemma ReadIsAvail(c: seq<Byte>, at: nat, n: nat, ret: FileSystem.Ret, piece: seq<Byte>)
    requires at + n < Blocks.UINT_LIMIT && n > 0
    requires ret == FileSystem.Val(-1) <==> at > |c| || at + n >= Blocks.UINT_LIMIT
    requires ret == FileSystem.Val(-1) ==> piece == []
    requires ret != FileSystem.Val(-1) ==>
               var k := FileSystem.Min(n, |c| - at);
               ret == FileSystem.Val(k) && piece == c[at..at + FileSystem.Min(k, n)]
    ensures piece == Avail(c, at, n) && (ret == FileSystem.Val(n) <==> |piece| == n)
  {
  }

  lemma LessAccess(tab: Tables, root: nat, va: nat, k: nat, n: nat)
    requires Accessible(tab, root, va, n) && k <= n
    ensures Accessible(tab, root, va, k)
  {
  }

  /** memmove of one piece into the page p of address va + k. */
  method LoadPiece(m: Memory, root: nat, ghost va: nat, p: nat, ghost k: nat, piece: seq<Byte>, ghost mem: Bytes,
                   ghost got: seq<Byte>)
    requires m.Valid() && IsRoot(m.w, root) && UserPage(m.tab, root, (va + k) / PGSIZE) && (va + k) % PGSIZE == 0
    requires p == Page(Pte(m.tab, root, (va + k) / PGSIZE)) && |piece| <= PGSIZE
    requires k + |piece| <= |got| && piece == got[k..k + |piece|]
    requires Stored(m.tab, mem, m.mem, Roots(m.w), root, va, got[..k])
    modifies m`mem
    ensures m.Valid() && Stored(m.tab, mem, m.mem, Roots(m.w), root, va, got[..k + |piece|])
  {
    hide Trees, FreeOk, Stored, IsRoot, ByteAt, Pte, Page;
    StoreInPage(m.tab, m.w, m.mem, root, va + k, piece);
    ghost var before := m.mem;
    m.mem := m.mem[p := Spliced(m.mem[p], 0, piece)];
    StoredMore(m.tab, mem, before, m.mem, Roots(m.w), root, va, got[..k], piece);
    assert got[..k] + piece == got[..k + |piece|];
  }

  lemma Aligned(va: nat, i: nat)
    requires va % PGSIZE == 0
    ensures i % PGSIZE == 0 ==> (va + i) % PGSIZE == 0
  {
  }

  /** The new address space after uvmalloc: every page accessible. */
  lemma AllAccessible(tab: Tables, w: Owners, mem: Bytes, tab': Tables, w': Owners, mem': Bytes, root: nat, n: nat)
    requires Added(tab, w, mem, tab', w', mem', root, 0, Repeated(Want(USER, ZeroPage()), n))
    ensures forall v: nat :: v < n ==> UserPage(tab', root, v)
  {
    forall v: nat | v < n ensures UserPage(tab', root, v) {
      assert NewPageAt(tab', w', mem', root, 0, Repeated(Want(USER, ZeroPage()), n), v);
      var e := Pte(tab', root, v);
      assert Flags(e) == USER;
      FieldsOf(Page(e), USER);
      assert e == Page(e) * 1024 + USER;
    }
  }

  lemma RangeAccessible(tab: Tables, root: nat, n: nat, a: nat, k: nat)
    requires a + k <= n && forall v: nat :: v < n ==> UserPage(tab, root, v)
    ensures Accessible(tab, root, a * PGSIZE, k * PGSIZE)
  {
    forall x: nat | a * PGSIZE <= x < a * PGSIZE + k * PGSIZE ensures UserPage(tab, root, x / PGSIZE) {
      assert x / PGSIZE < n;
    }
  }

  /** The resumed address space: the code and stack bytes where they were, and an
      inaccessible guard page between them. */
  ghost predicate Rebuilt(tab: Tables, mem: Bytes, root: nat, n: nat, code: seq<Byte>, stack: seq<Byte>) {
    && ExecLayout(tab, root, n)
    && V(Pte(tab, root, n - 2)) && !UserPage(tab, root, n - 2)
    && BytesAt(tab, mem, root, 0, (n - 2) * PGSIZE) == code
    && BytesAt(tab, mem, root, (n - 1) * PGSIZE, PGSIZE) == stack
  }

  lemma StoredElsewhere(tab: Tables, mem: Bytes, mem': Bytes, roots: set<nat>, root: nat, va: nat, bytes: seq<Byte>,
                        x: nat, n: nat)
    requires root in roots && Accessible(tab, root, x, n) && Stored(tab, mem, mem', roots, root, va, bytes)
    requires x + n <= va || va + |bytes| <= x
    ensures BytesAt(tab, mem', root, x, n) == BytesAt(tab, mem, root, x, n)
  {
    hide ByteAt, UserPage;
    forall k | 0 <= k < n ensures BytesAt(tab, mem', root, x, n)[k] == BytesAt(tab, mem, root, x, n)[k] {
      assert UserPage(tab, root, (x + k) / PGSIZE);
    }
  }

  /** uvmclear of the guard page leaves the bytes around it alone. */
  lemma GuardHidden(tab: Tables, tab': Tables, mem: Bytes, roots: set<nat>, root: nat, n: nat, code: seq<Byte>,
                    stack: seq<Byte>)
    requires root in roots && 2 <= n <= MAXVPN && forall v: nat :: v < n ==> UserPage(tab, root, v)
    requires OnlyChanges(tab, tab', roots, root, n - 2, Hidden(Pte(tab, root, n - 2)))
    requires BytesAt(tab, mem, root, 0, (n - 2) * PGSIZE) == code &&
             BytesAt(tab, mem, root, (n - 1) * PGSIZE, PGSIZE) == stack
    ensures Rebuilt(tab', mem, root, n, code, stack)
  {
    HiddenFields(Pte(tab, root, n - 2));
    assert UserPage(tab, root, n - 2);
    hide Hidden, V, U, Page, Flags, Rwx, Pte;
    forall v: nat | v < n && v != n - 2 ensures Pte(tab', root, v) == Pte(tab, root, v) && UserPage(tab', root, v) {
      assert UserPage(tab, root, v);
    }
    SameView(tab, tab', mem, root, 0, (n - 2) * PGSIZE, n);
    SameView(tab, tab', mem, root, (n - 1) * PGSIZE, PGSIZE, n);
  }

  lemma SameView(tab: Tables, tab': Tables, mem: Bytes, root: nat, va: nat, len: nat, n: nat)
    requires n >= 2 && forall v: nat :: v < n && v != n - 2 ==> Pte(tab', root, v) == Pte(tab, root, v)
    requires va + len <= (n - 2) * PGSIZE || (va == (n - 1) * PGSIZE && len == PGSIZE)
    ensures BytesAt(tab', mem, root, va, len) == BytesAt(tab, mem, root, va, len)
  {
    forall k | 0 <= k < len ensures BytesAt(tab', mem, root, va, len)[k] == BytesAt(tab, mem, root, va, len)[k] {
      var v := (va + k) / PGSIZE;
      assert v < n && v != n - 2;
      assert Pte(tab', root, v) == Pte(tab, root, v);
      assert ByteAt(tab', mem, root, va + k) == ByteAt(tab, mem, root, va + k);
    }
  }

  // ---- the resumed process ------------------------------------------------------------

  /** A zeroed range, with the bytes of the file put over its beginning. */
  lemma PaddedBytes(tab: Tables, mem: Bytes, mem': Bytes, roots: set<nat>, root: nat, va: nat, c: seq<Byte>, at: nat,
                    len: nat)
    requires root in roots && Accessible(tab, root, va, len) &&
             Stored(tab, mem, mem', roots, root, va, Avail(c, at, len))
    requires forall x: nat :: va <= x < va + len ==> ByteAt(tab, mem, root, x) == 0
    ensures BytesAt(tab, mem', root, va, len) == Padded(c, at, len)
  {
    hide ByteAt, UserPage, Avail;
    var s := BytesAt(tab, mem', root, va, len);
    forall k: nat | k < len ensures s[k] == Padded(c, at, len)[k] {
      assert UserPage(tab, root, (va + k) / PGSIZE);
      assert s[k] == ByteAt(tab, mem', root, va + k);
    }
  }

  /** What uvmalloc added reads as zeros. */
  lemma ZeroBytes(tab: Tables, w: Owners, mem: Bytes, tab': Tables, w': Owners, mem': Bytes, root: nat, n: nat, x: nat)
    requires Added(tab, w, mem, tab', w', mem', root, 0, Repeated(Want(USER, ZeroPage()), n)) && x < n * PGSIZE
    ensures ByteAt(tab', mem', root, x) == 0
  {
    var v := x / PGSIZE;
    assert v < n;
    assert NewPageAt(tab', w', mem', root, 0, Repeated(Want(USER, ZeroPage()), n), v);
  }

  /** Translations, and the bytes that user code sees, of every address space but root. */
  ghost predicate OthersUntouched(tab: Tables, w: Owners, mem: Bytes, tab': Tables, mem': Bytes, root: nat) {
    && (forall r, v: nat :: r in Roots(w) && r != root && v < MAXVPN ==> Pte(tab', r, v) == Pte(tab, r, v))
    && (forall r, x: nat :: r in Roots(w) && r != root && UserPage(tab, r, x / PGSIZE) ==>
          ByteAt(tab', mem', r, x) == ByteAt(tab, mem, r, x))
  }

  lemma AddedByte(tab: Tables, w: Owners, mem: Bytes, tab': Tables, w': Owners, mem': Bytes, root: nat, a: nat,
                  want: seq<Want>, r: nat, x: nat)
    requires Trees(tab, w) && Filled(mem, w) && Filled(mem', w') && IsRoot(w, r) && r != root
    requires Added(tab, w, mem, tab', w', mem', root, a, want) && UserPage(tab, r, x / PGSIZE)
    ensures UserPage(tab', r, x / PGSIZE) && ByteAt(tab', mem', r, x) == ByteAt(tab, mem, r, x)
  {
    hide Trees, NewPageAt;
    var v := x / PGSIZE;
    UserPageOwned(tab, w, r, v);
    assert r in Roots(w);
    assert Pte(tab', r, v) == Pte(tab, r, v);
    assert mem'[Page(Pte(tab, r, v))] == mem[Page(Pte(tab, r, v))];
    hide Pte;
  }

  /** From uvmalloc over the two loads to uvmclear. */
  lemma ResumeUntouched(tab: Tables, w: Owners, mem: Bytes, tab1: Tables, w1: Owners, mem1: Bytes, mem2: Bytes,
                        mem3: Bytes, tab2: Tables, root: nat, want: seq<Want>, va: nat, code: seq<Byte>, vb: nat,
                        stack: seq<Byte>, g: nat, e: nat)
    requires Trees(tab, w) && Filled(mem, w) && Filled(mem1, w1) && Added(tab, w, mem, tab1, w1, mem1, root, 0, want)
    requires Stored(tab1, mem1, mem2, Roots(w1), root, va, code) && Stored(tab1, mem2, mem3, Roots(w1), root, vb, stack)
    requires OnlyChanges(tab1, tab2, Roots(w1), root, g, e)
    ensures OthersUntouched(tab, w, mem, tab2, mem3, root)
  {
    hide Trees, Filled, Pte, UserPage, ByteAt, NewPageAt;
    AddedRoots(w, w1, root, 0, |want|);
    forall r, x: nat | r in Roots(w) && r != root && UserPage(tab, r, x / PGSIZE)
      ensures ByteAt(tab2, mem3, r, x) == ByteAt(tab, mem, r, x)
    {
      AddedByte(tab, w, mem, tab1, w1, mem1, root, 0, want, r, x);
      assert ByteAt(tab1, mem3, r, x) == ByteAt(tab1, mem2, r, x) == ByteAt(tab1, mem1, r, x);
      SameTranslation(tab1, tab2, mem3, Roots(w1), root, g, e, r, x);
    }
  }

  lemma SameTranslation(tab: Tables, tab': Tables, mem: Bytes, roots: set<nat>, root: nat, g: nat, e: nat, r: nat,
                        x: nat)
    requires OnlyChanges(tab, tab', roots, root, g, e) && r in roots && r != root && UserPage(tab, r, x / PGSIZE)
    ensures ByteAt(tab', mem, r, x) == ByteAt(tab, mem, r, x)
  {
    assert Pte(tab', r, x / PGSIZE) == Pte(tab, r, x / PGSIZE);
    hide Pte;
  }

  datatype Resumed = Done | Error | ResumePanic

  /** The header of a picture of n pages. */
  ghost predicate HeaderFor(h: Header, n: nat) {
    2 <= n && n * PGSIZE < INT_LIMIT && h.memSz == n * PGSIZE && h.codeSz == (n - 2) * PGSIZE
  }

  function Pages(h: Header): nat { h.memSz / PGSIZE }

  /** kresume into a page table without user pages (kernel/proc.c:805-882), from any file whose
      header is one that ksuspend writes. It fails when the file has no whole header and
      registers. Otherwise it panics (in loadseg) exactly when the free pages do not cover the
      pages and tables needed, and if not it rebuilds the process from the file, with zeros
      where the file has ended: what loadseg reports is ignored. */
  method KResume(m: Memory, root: nat, fs: FileSystem.Fs, i: nat) returns (r: Resumed, frame: seq<nat>, hdr: Header)
    requires m.Valid() && IsRoot(m.w, root) && Unmapped(m.tab, root, 0, MAXVPN - 2) && fs.Valid() && i < |fs.v.inodes|
    requires var c := Files.Contents(fs.v, i);
             |c| >= HDR + 8 * REGS ==> HeaderFor(ReadHeader(c[..HDR]), Pages(ReadHeader(c[..HDR])))
    modifies m, fs`v, fs`w, fs`logged
    ensures m.Valid() && fs.v == old(fs.v) && fs.w == old(fs.w) && fs.logged == old(fs.logged)
    ensures r.Error? <==> |Files.Contents(fs.v, i)| < HDR + 8 * REGS
    ensures r.Error? ==> m.tab == old(m.tab) && m.w == old(m.w) && m.mem == old(m.mem)
    ensures var c := Files.Contents(fs.v, i);
            !r.Error? ==>
              && hdr == ReadHeader(c[..HDR]) && frame == ReadFrame(c[HDR..HDR + 8 * REGS], REGS)
              && (r.ResumePanic? <==> |old(m.free)| < Need(old(m.tab), root, 0, Pages(hdr)))
              && (r.Done? ==> Rebuilt(m.tab, m.mem, root, Pages(hdr), Padded(c, HDR + 8 * REGS, hdr.codeSz),
                                      Padded(c, HDR + 8 * REGS + hdr.codeSz, PGSIZE)))
    ensures r.Done? ==> OthersUntouched(old(m.tab), old(m.w), old(m.mem), m.tab, m.mem, root)
  {
    hide Trees, FreeOk, Filled, IsRoot, Need, Unmapped, Rebuilt, OthersUntouched, Volume.Owns, Files.NoHoles,
         Files.Contents, ReadHeader, ReadFrame, Padded;
    ghost var c := Files.Contents(fs.v, i);
    frame, hdr := [], Header([], 0, 0, 0, 0);
    var ret, b := fs.Readi(i, 0, HDR, HDR);
    if ret != FileSystem.Val(HDR) { return Error, frame, hdr; }
    assert b == c[..HDR];
    hdr := ReadHeader(b);
    ret, b := fs.Readi(i, HDR, 8 * REGS, 8 * REGS);
    if ret != FileSystem.Val(8 * REGS) { return Error, frame, hdr; }
    assert b == c[HDR..HDR + 8 * REGS];
    frame := ReadFrame(b, REGS);
    r := Rebuild(m, root, fs, i, hdr, Pages(hdr));
  }

  /** From uvmalloc to uvmclear. */
  method Rebuild(m: Memory, root: nat, fs: FileSystem.Fs, i: nat, hdr: Header, ghost n: nat) returns (r: Resumed)
    requires m.Valid() && IsRoot(m.w, root) && Unmapped(m.tab, root, 0, MAXVPN - 2) && fs.Valid() && i < |fs.v.inodes|
    requires HeaderFor(hdr, n)
    modifies m, fs`v, fs`w, fs`logged
    ensures m.Valid() && fs.v == old(fs.v) && fs.w == old(fs.w) && fs.logged == old(fs.logged) && !r.Error?
    ensures r.ResumePanic? <==> |old(m.free)| < Need(old(m.tab), root, 0, n)
    ensures r.Done? ==> var c := Files.Contents(fs.v, i);
                        Rebuilt(m.tab, m.mem, root, n, Padded(c, HDR + 8 * REGS, hdr.codeSz),
                                Padded(c, HDR + 8 * REGS + hdr.codeSz, PGSIZE))
    ensures r.Done? ==> OthersUntouched(old(m.tab), old(m.w), old(m.mem), m.tab, m.mem, root)
  {
    hide Trees, FreeOk, Filled, IsRoot, Need, Unmapped, Rebuilt, Volume.Owns, Files.NoHoles, Files.Contents, Padded,
         Avail, Added, Spent, NewTablesOnly, Stored, Accessible, Roots, Pte, Repeated, BytesAt, RoundUp, PagesBetween,
         UserPage, OthersUntouched, OnlyChanges;
    ghost var c := Files.Contents(fs.v, i);
    ImagePages(n);
    UnmappedPart(m.tab, root, n);
    var a, size := UvmAlloc(m, root, 0, hdr.memSz);
    var base, sz := HDR + 8 * REGS, RoundUp(hdr.codeSz);
    if !a.Ok? {
      NoPages(old(m.tab), old(m.w), old(m.mem), m.tab, m.w, m.mem, root, Avail(c, base, hdr.codeSz), hdr.codeSz,
              Avail(c, base + hdr.codeSz, PGSIZE));
    } else {
      AllAccessible(old(m.tab), old(m.w), old(m.mem), m.tab, m.w, m.mem, root, n);
      LoadAccess(m.tab, root, n);
      RootListed(m.w, root);
    }
    ghost var tab1, mem1 := m.tab, m.mem;
    var l := LoadSeg(m, root, 0, fs, i, base, hdr.codeSz);
    if l.LoadPanic? {
      if a.Ok? { LessAccess(m.tab, root, 0, FileSystem.Min(hdr.codeSz, |Avail(c, base, hdr.codeSz)| + 1),
                            (n - 2) * PGSIZE); }
      return ResumePanic;
    }
    ghost var mem2 := m.mem;
    l := LoadSeg(m, root, sz * PGSIZE + PGSIZE, fs, i, base + hdr.codeSz, PGSIZE);
    if l.LoadPanic? {
      if a.Ok? {
        LessAccess(m.tab, root, (n - 1) * PGSIZE, FileSystem.Min(PGSIZE, |Avail(c, base + hdr.codeSz, PGSIZE)| + 1),
                   PGSIZE);
      }
      return ResumePanic;
    }
    BothLoaded(old(m.tab), old(m.w), old(m.mem), m.tab, m.w, mem1, mem2, m.mem, root, n, c);
    GuardServed(m.tab, root, n - 2, n);
    var u := UvmClear(m, root, sz);
    GuardHidden(tab1, m.tab, m.mem, Roots(m.w), root, n, Padded(c, base, hdr.codeSz),
                Padded(c, base + hdr.codeSz, PGSIZE));
    ResumeUntouched(old(m.tab), old(m.w), old(m.mem), tab1, m.w, mem1, mem2, m.mem, m.tab, root,
                    Repeated(Want(USER, ZeroPage()), n), 0, Avail(c, base, hdr.codeSz), sz * PGSIZE + PGSIZE,
                    Avail(c, base + hdr.codeSz, PGSIZE), sz, Hidden(Pte(tab1, root, sz)));
    r := Done;
  }

  lemma UnmappedPart(tab: Tables, root: nat, n: nat)
    requires Unmapped(tab, root, 0, MAXVPN - 2) && n * PGSIZE < INT_LIMIT
    ensures Unmapped(tab, root, 0, n) && n <= MAXVPN - 2
  {
  }

  /** Without the pages, the first address that loadseg looks for is not there. */
  lemma NoPages(tab: Tables, w: Owners, mem: Bytes, tab': Tables, w': Owners, mem': Bytes, root: nat, code: seq<Byte>,
                codeSz: nat, stack: seq<Byte>)
    requires IsRoot(w, root) && Unmapped(tab, root, 0, MAXVPN - 2) && NewTablesOnly(tab, w, mem, tab', w', mem', root)
    ensures codeSz > 0 ==> !Accessible(tab', root, 0, FileSystem.Min(codeSz, |code| + 1))
    ensures !Accessible(tab', root, PGSIZE, FileSystem.Min(PGSIZE, |stack| + 1))
  {
    assert root in Roots(w);
    assert Pte(tab', root, 0) == Pte(tab, root, 0) && Pte(tab', root, 1) == Pte(tab, root, 1);
    assert !UserPage(tab', root, 0 / PGSIZE) && !UserPage(tab', root, PGSIZE / PGSIZE);
  }

  lemma LoadAccess(tab: Tables, root: nat, n: nat)
    requires 2 <= n && forall v: nat :: v < n ==> UserPage(tab, root, v)
    ensures Accessible(tab, root, 0, (n - 2) * PGSIZE) && Accessible(tab, root, (n - 1) * PGSIZE, PGSIZE)
  {
    RangeAccessible(tab, root, n, 0, n - 2);
    RangeAccessible(tab, root, n, n - 1, 1);
  }

  /** After both loads the two ranges hold what the file has. */
  lemma BothLoaded(tab: Tables, w: Owners, mem: Bytes, tab1: Tables, w1: Owners, mem1: Bytes, mem2: Bytes, mem3: Bytes,
                   root: nat, n: nat, c: seq<Byte>)
    requires IsRoot(w1, root) && 2 <= n &&
             Added(tab, w, mem, tab1, w1, mem1, root, 0, Repeated(Want(USER, ZeroPage()), n))
    requires Accessible(tab1, root, 0, (n - 2) * PGSIZE) && Accessible(tab1, root, (n - 1) * PGSIZE, PGSIZE)
    requires Stored(tab1, mem1, mem2, Roots(w1), root, 0, Avail(c, HDR + 8 * REGS, (n - 2) * PGSIZE))
    requires Stored(tab1, mem2, mem3, Roots(w1), root, (n - 1) * PGSIZE,
                    Avail(c, HDR + 8 * REGS + (n - 2) * PGSIZE, PGSIZE))
    ensures BytesAt(tab1, mem3, root, 0, (n - 2) * PGSIZE) == Padded(c, HDR + 8 * REGS, (n - 2) * PGSIZE)
    ensures BytesAt(tab1, mem3, root, (n - 1) * PGSIZE, PGSIZE) == Padded(c, HDR + 8 * REGS + (n - 2) * PGSIZE, PGSIZE)
  {
    RootListed(w1, root);
    hide Stored, Added, Accessible, Padded, Avail, ByteAt, Roots, BytesAt;
    var lo, hi := (n - 2) * PGSIZE, (n - 1) * PGSIZE;
    forall x: nat | 0 <= x < 0 + lo ensures ByteAt(tab1, mem1, root, x) == 0 {
      ZeroBytes(tab, w, mem, tab1, w1, mem1, root, n, x);
    }
    PaddedBytes(tab1, mem1, mem2, Roots(w1), root, 0, c, HDR + 8 * REGS, lo);
    var code, stack := Avail(c, HDR + 8 * REGS, lo), Avail(c, HDR + 8 * REGS + lo, PGSIZE);
    StoredElsewhere(tab1, mem2, mem3, Roots(w1), root, hi, stack, 0, lo);
    StoredElsewhere(tab1, mem1, mem2, Roots(w1), root, 0, code, hi, PGSIZE);
    forall x: nat | hi <= x < hi + PGSIZE ensures ByteAt(tab1, mem2, root, x) == 0 {
      ZeroBytes(tab, w, mem, tab1, w1, mem1, root, n, x);
      SameAt(tab1, mem1, mem2, root, hi, PGSIZE, x - hi);
    }
    PaddedBytes(tab1, mem2, mem3, Roots(w1), root, hi, c, HDR + 8 * REGS + lo, PGSIZE);
  }

  lemma SameAt(tab: Tables, mem: Bytes, mem': Bytes, root: nat, va: nat, n: nat, k: nat)
    requires BytesAt(tab, mem', root, va, n) == BytesAt(tab, mem, root, va, n) && k < n
    ensures ByteAt(tab, mem', root, va + k) == ByteAt(tab, mem, root, va + k)
  {
    hide ByteAt;
    assert BytesAt(tab, mem', root, va, n)[k] == ByteAt(tab, mem', root, va + k);
    assert BytesAt(tab, mem, root, va, n)[k] == ByteAt(tab, mem, root, va + k);
  }

  lemma ImagePages(n: nat)
    requires 2 <= n
    ensures RoundUp(0) == 0 && RoundUp(n * PGSIZE) == n && PagesBetween(0, n * PGSIZE) == n &&
            RoundUp((n - 2) * PGSIZE) == n - 2
    ensures (n - 2) * PGSIZE + PGSIZE == (n - 1) * PGSIZE && ((n - 1) * PGSIZE) % PGSIZE == 0
  {
  }

  lemma RootListed(w: Owners, root: nat)
    requires IsRoot(w, root)
    ensures root in Roots(w)
  {
  }

  lemma GuardServed(tab: Tables, root: nat, v: nat, n: nat)
    requires v < n && forall x: nat :: x < n ==> UserPage(tab, root, x)
    ensures v < MAXVPN && LeafTable(tab, root, v).Some?
  {
    assert UserPage(tab, root, v);
  }

  /** What the system call's return does to the registers (kernel/syscall.c:148). */
  function AfterSyscall(tf: seq<nat>, ret: nat): seq<nat>
    requires |tf| == REGS
  {
    tf[A0 := ret]
  }

  lemma SubSlice(data: seq<Byte>, at: nat, bytes: seq<Byte>, i: nat, n: nat)
    requires ReadsAs(data, at, bytes) && i + n <= |bytes|
    ensures ReadsAs(data, at + i, bytes[i..i + n])
  {
    var l, r := data[at + i..at + i + n], bytes[i..i + n];
    forall k | 0 <= k < n ensures l[k] == r[k] {
      assert data[at..at + |bytes|][i + k] == data[at + (i + k)];
    }
  }

  /** Where the parts of a picture are in the file. */
  lemma PictureParts(data: seq<Byte>, h: Header, tf: seq<nat>, code: seq<Byte>, stack: seq<Byte>)
    requires HeaderOk(h) && FrameOk(tf) && ReadsAs(data, 0, Picture(h, tf, code, stack))
    ensures HDR + 8 * REGS + |code| + |stack| <= |data|
    ensures ReadsAs(data, 0, HeaderBytes(h)) && ReadsAs(data, HDR, FrameBytes(tf))
    ensures ReadsAs(data, HDR + 8 * REGS, code) && ReadsAs(data, HDR + 8 * REGS + |code|, stack)
  {
    hide HeaderBytes, FrameBytes, ReadsAs;
    var p := Picture(h, tf, code, stack);
    var c := HDR + 8 * REGS;
    FourParts(HeaderBytes(h), FrameBytes(tf), code, stack);
    CoversPicture(data, p);
    SubSlice(data, 0, p, 0, HDR);
    SubSlice(data, 0, p, HDR, 8 * REGS);
    SubSlice(data, 0, p, c, |code|);
    SubSlice(data, 0, p, c + |code|, |stack|);
  }

  lemma CoversPicture(data: seq<Byte>, p: seq<Byte>)
    requires ReadsAs(data, 0, p)
    ensures |p| <= |data|
  {
  }

  lemma FourParts(a: seq<Byte>, b: seq<Byte>, c: seq<Byte>, d: seq<Byte>)
    ensures var p := a + b + c + d;
            && p[0..|a|] == a && p[|a|..|a| + |b|] == b
            && p[|a| + |b|..|a| + |b| + |c|] == c && p[|a| + |b| + |c|..|a| + |b| + |c| + |d|] == d
  {
  }

  /** The picture begins the file. */
  lemma FileBegins(was: seq<Byte>, p: seq<Byte>)
    ensures ReadsAs(Files.Splice(was, 0, p), 0, p)
  {
  }

  lemma HeaderMade(n: nat, name: seq<Byte>, tracing: nat)
    requires 2 <= n && n * PGSIZE < INT_LIMIT && |name| == 16 && tracing < Blocks.UINT_LIMIT
    ensures HeaderOk(HeaderOf(n, name, tracing)) && HeaderFor(HeaderOf(n, name, tracing), n)
    ensures Pages(HeaderOf(n, name, tracing)) == n
  {
  }

  /** The header and the registers come back from a file that begins with them. */
  lemma HeadBack(c: seq<Byte>, n: nat, name: seq<Byte>, tracing: nat, tf: seq<nat>)
    requires 2 <= n && n * PGSIZE < INT_LIMIT && |name| == 16 && tracing < Blocks.UINT_LIMIT && FrameOk(tf)
    requires ReadsAs(c, 0, HeaderBytes(HeaderOf(n, name, tracing)) + FrameBytes(tf))
    ensures |c| >= HDR + 8 * REGS && ReadHeader(c[..HDR]) == HeaderOf(n, name, tracing)
    ensures ReadFrame(c[HDR..HDR + 8 * REGS], REGS) == tf
  {
    HeaderMade(n, name, tracing);
    var h := HeaderOf(n, name, tracing);
    HeaderRoundTrip(h);
    FrameRoundTrip(tf);
    hide HeaderBytes, FrameBytes, ReadHeader, ReadFrame, HeaderOk, FrameOk;
    TwoParts(c, HeaderBytes(h), FrameBytes(tf));
  }

  lemma TwoParts(c: seq<Byte>, a: seq<Byte>, b: seq<Byte>)
    requires ReadsAs(c, 0, a + b)
    ensures |a| + |b| <= |c| && c[..|a|] == a && c[|a|..|a| + |b|] == b
  {
    assert c[0..|a| + |b|] == a + b;
  }

  /** The bytes of the victim come back from a file that begins with the whole picture. */
  lemma BytesBack(c: seq<Byte>, tab: Tables, mem: Bytes, victim: nat, n: nat, tf: seq<nat>, name: seq<Byte>,
                  tracing: nat, tab': Tables, mem': Bytes, root: nat)
    requires 2 <= n && n * PGSIZE < INT_LIMIT && |name| == 16 && tracing < Blocks.UINT_LIMIT && FrameOk(tf)
    requires ReadsAs(c, 0, PictureOf(tab, mem, victim, n, tf, name, tracing))
    requires Rebuilt(tab', mem', root, n, Padded(c, HDR + 8 * REGS, (n - 2) * PGSIZE),
                     Padded(c, HDR + 8 * REGS + (n - 2) * PGSIZE, PGSIZE))
    ensures forall x: nat :: x < n * PGSIZE && x / PGSIZE != n - 2 ==>
              ByteAt(tab', mem', root, x) == ByteAt(tab, mem, victim, x)
  {
    HeaderMade(n, name, tracing);
    hide ByteAt, BytesAt, ReadsAs, Padded, HeaderBytes, FrameBytes, ExecLayout, HeaderOk, FrameOk, Picture;
    var code, stack := BytesAt(tab, mem, victim, 0, (n - 2) * PGSIZE),
      BytesAt(tab, mem, victim, (n - 1) * PGSIZE, PGSIZE);
    PictureParts(c, HeaderOf(n, name, tracing), tf, code, stack);
    PaddedWhole(c, HDR + 8 * REGS, code);
    PaddedWhole(c, HDR + 8 * REGS + (n - 2) * PGSIZE, stack);
    forall x: nat | x < n * PGSIZE && x / PGSIZE != n - 2
      ensures ByteAt(tab', mem', root, x) == ByteAt(tab, mem, victim, x) {
      SameByte(tab, mem, victim, tab', mem', root, n, x);
    }
  }

  /** Where user code may go after the resume: everywhere but in the guard page. */
  lemma LayoutBack(tab: Tables, victim: nat, tab': Tables, mem': Bytes, root: nat, n: nat, code: seq<Byte>,
                   stack: seq<Byte>)
    requires Rebuilt(tab', mem', root, n, code, stack)
    ensures (forall v: nat :: v < n ==> (UserPage(tab', root, v) <==> UserPage(tab, victim, v))) <==>
              ExecLayout(tab, victim, n) && !UserPage(tab, victim, n - 2)
  {
    hide UserPage, BytesAt;
    if forall v: nat :: v < n ==> (UserPage(tab', root, v) <==> UserPage(tab, victim, v)) {
      assert n - 2 < n;
    }
  }

  /** No file is long enough for the last byte of a larger process. */
  lemma LastByteLost(c: seq<Byte>, tab: Tables, mem: Bytes, root: nat, n: nat, code: seq<Byte>)
    requires n > 67 && |c| <= Volume.MAXBYTES
    requires Rebuilt(tab, mem, root, n, code, Padded(c, HDR + 8 * REGS + (n - 2) * PGSIZE, PGSIZE))
    ensures ByteAt(tab, mem, root, n * PGSIZE - 1) == 0
  {
    hide ByteAt;
    PictureFits(n);
    var k := PGSIZE - 1;
    assert (n - 1) * PGSIZE + k == n * PGSIZE - 1;
    assert BytesAt(tab, mem, root, (n - 1) * PGSIZE, PGSIZE)[k] == ByteAt(tab, mem, root, n * PGSIZE - 1);
  }

  /** Suspend a process into a file, then resume it from there into another address space.
      For a process as exec leaves it, of at most 67 pages, this succeeds exactly when the disk
      has the blocks and memory has the pages and tables; then size, name, registers and every
      byte that user code could access are back. A larger process never gets its last byte
      back, but a zero. Whatever the process, what user code may
      access is the same afterwards exactly when the process is as exec leaves it: one that has
      grown its heap above its stack gets its guard page in the wrong place. */
  method RoundTrip(m: Memory, victim: nat, root: nat, n: nat, tf: seq<nat>, name: seq<Byte>, tracing: nat,
                   fs: FileSystem.Fs, i: nat)
    returns (r: Resumed, frame: seq<nat>, hdr: Header)
    requires m.Valid() && IsRoot(m.w, victim) && IsRoot(m.w, root) && 2 <= n && n * PGSIZE < INT_LIMIT && FrameOk(tf)
    requires |name| == 16 && tracing < Blocks.UINT_LIMIT && Unmapped(m.tab, root, 0, MAXVPN - 2)
    requires fs.Valid() && i < |fs.v.inodes|
    modifies m, fs
    ensures !r.Error?
    ensures r.Done? ==> m.Valid() && fs.Valid() && frame == tf && hdr == HeaderOf(n, name, tracing)
    ensures r.Done? ==>
              ((forall v: nat :: v < n ==> (UserPage(m.tab, root, v) <==> old(UserPage(m.tab, victim, v)))) <==>
               old(ExecLayout(m.tab, victim, n) && !UserPage(m.tab, victim, n - 2)))
    ensures old(ExecLayout(m.tab, victim, n)) && n <= 67 ==>
              (r.Done? <==> && |BlockNeeds.Unmarked(old(fs.v))| >= BlocksNeeded(old(fs.v), i, 0, PictureSize(n))
                            && |old(m.free)| >= Need(old(m.tab), root, 0, n))
    ensures r.Done? ==> (AfterSyscall(frame, 0) == tf <==> tf[A0] == 0)
    ensures r.Done? && n > 67 ==> ByteAt(m.tab, m.mem, root, n * PGSIZE - 1) == 0
    ensures r.Done? ==> OthersUntouched(old(m.tab), old(m.w), old(m.mem), m.tab, m.mem, root)
    ensures old(ExecLayout(m.tab, victim, n)) && n <= 67 && r.Done? ==>
              forall x: nat :: x < n * PGSIZE && x / PGSIZE != n - 2 ==>
                ByteAt(m.tab, m.mem, root, x) == old(ByteAt(m.tab, m.mem, victim, x))
  {
    hide Trees, FreeOk, Filled, IsRoot, Unmapped, Pte, Picture, BytesAt, UserPage, ByteAt, Rebuilt, ExecLayout, Need,
         Volume.Owns, Files.NoHoles, Files.Contents, BlockNeeds.Unmarked, BlockNeeds.BlocksFor, FileSystem.Span,
         FileSystem.WriteFits, BlocksNeeded, BlockNeeds.AllMarked, ReadsAs, ReadHeader, ReadFrame, HeaderBytes,
         FrameBytes, Padded, HeaderFor, Files.Splice, PictureOf, HeaderOf, Pages, FrameOk, OthersUntouched;
    ghost var v0 := fs.v;
    var ok;
    ghost var done;
    ok, done := KSuspend(m, victim, n, tf, name, tracing, fs, i, 0);
    PictureFits(n);
    FitsAtStart(v0, i, n);
    frame, hdr := [], Header([], 0, 0, 0, 0);
    if !ok { return ResumePanic, frame, hdr; }
    ghost var c := Files.Contents(fs.v, i);
    HeadBack(c, n, name, tracing, tf);
    HeaderMade(n, name, tracing);
    ghost var tab, mem := m.tab, m.mem;
    r, frame, hdr := KResume(m, root, fs, i);
    if r.Done? {
      HeaderPages(n, name, tracing);
      LayoutBack(tab, victim, m.tab, m.mem, root, n, Padded(c, HDR + 8 * REGS, hdr.codeSz),
                 Padded(c, HDR + 8 * REGS + hdr.codeSz, PGSIZE));
      if n > 67 {
        SizeBound(fs.v, fs.w, i);
        LastByteLost(c, m.tab, m.mem, root, n, Padded(c, HDR + 8 * REGS, hdr.codeSz));
      }
      if ExecLayout(tab, victim, n) && n <= 67 {
        ghost var p := PictureOf(tab, mem, victim, n, tf, name, tracing);
        assert p[..done] == p;
        FileBegins(Files.Contents(v0, i), p);
        BytesBack(c, tab, mem, victim, n, tf, name, tracing, m.tab, m.mem, root);
      }
    }
  }

  lemma SizeBound(v: Volume.Vol, w: Slots, i: nat)
    requires Volume.Owns(v, w) && i < |v.inodes|
    ensures |Files.Contents(v, i)| <= Volume.MAXBYTES
  {
  }

  lemma HeaderPages(n: nat, name: seq<Byte>, tracing: nat)
    requires 2 <= n
    ensures HeaderOf(n, name, tracing).codeSz == (n - 2) * PGSIZE
  {
  }

  lemma FitsAtStart(v: Volume.Vol, i: nat, n: nat)
    requires i < |v.inodes| && n >= 1
    ensures FileSystem.WriteFits(v, i, 0, HDR + 8 * REGS)
    ensures FileSystem.WriteFits(v, i, 0, PictureSize(n)) <==> PictureSize(n) <= Volume.MAXBYTES
  {
  }

  lemma SameByte(tab: Tables, mem: Bytes, victim: nat, tab': Tables, mem': Bytes, root: nat, n: nat, x: nat)
    requires n >= 2 && x < n * PGSIZE && x / PGSIZE != n - 2
    requires BytesAt(tab', mem', root, 0, (n - 2) * PGSIZE) == BytesAt(tab, mem, victim, 0, (n - 2) * PGSIZE)
    requires BytesAt(tab', mem', root, (n - 1) * PGSIZE, PGSIZE) == BytesAt(tab, mem, victim, (n - 1) * PGSIZE, PGSIZE)
    ensures ByteAt(tab', mem', root, x) == ByteAt(tab, mem, victim, x)
  {
    hide ByteAt;
    if x / PGSIZE < n - 2 {
      assert BytesAt(tab', mem', root, 0, (n - 2) * PGSIZE)[x] == BytesAt(tab, mem, victim, 0, (n - 2) * PGSIZE)[x];
      assert 0 + x == x;
    } else {
      var k := x - (n - 1) * PGSIZE;
      assert BytesAt(tab', mem', root, (n - 1) * PGSIZE, PGSIZE)[k] ==
             BytesAt(tab, mem, victim, (n - 1) * PGSIZE, PGSIZE)[k];
      assert (n - 1) * PGSIZE + k == x;
    }
  }
}
