/** Files as flat byte sequences over their block lists. */
module Files {
  import opened Blocks
  import opened Volume
  import opened VolumeProofs
  import opened BlockNeeds

  /** Byte p of inode i, read through its block list. */
  function ByteAt(v: Vol, i: nat, p: nat): Byte
    requires Shape(v) && i < |v.inodes| && p < MAXBYTES
  {
    var a := BlockOf(v, i, p / BSIZE);
    if a < |v.blocks| then v.blocks[a][p % BSIZE] else 0
  }

  /** Every block below the file size is mapped. */
  ghost predicate NoHoles(v: Vol, i: nat)
    requires Shape(v) && i < |v.inodes|
  {
    forall bn: nat :: bn * BSIZE < v.inodes[i].size && bn < MAXFILE ==> BlockOf(v, i, bn) != 0
  }

  function Contents(v: Vol, i: nat): (c: seq<Byte>)
    requires Shape(v) && i < |v.inodes|
    ensures |c| == v.inodes[i].size
  {
    seq(v.inodes[i].size, p requires 0 <= p < v.inodes[i].size => ByteAt(v, i, p))
  }

  ghost predicate Consistent(v: Vol, w: map<nat, (nat, nat)>) {
    Owns(v, w) && forall i :: 0 <= i < |v.inodes| ==> NoHoles(v, i)
  }

  /** Every block changed from v0 to v is in log, which has grown from log0. */
  ghost predicate Logs(v0: Vol, log0: set<nat>, v: Vol, log: set<nat>) {
    && log0 <= log && |v.blocks| == |v0.blocks|
    && forall b: nat :: b < |v.blocks| && v.blocks[b] != v0.blocks[b] ==> b in log
  }

  lemma LogsOn(v0: Vol, log0: set<nat>, u: Vol, log1: set<nat>, v: Vol, log: set<nat>)
    requires Logs(v0, log0, u, log1) && Logs(u, log1, v, log)
    ensures Logs(v0, log0, v, log)
  {
    forall b: nat | b < |v.blocks| && v.blocks[b] != v0.blocks[b] ensures b in log {
      assert v.blocks[b] != u.blocks[b] || u.blocks[b] != v0.blocks[b];
    }
  }

  lemma LogsNothing(v: Vol, log: set<nat>)
    ensures Logs(v, log, v, log)
  {
  }

  lemma LogsAllocated(v: Vol, b: nat, log: set<nat>)
    requires Shape(v) && b < v.sb.size
    ensures Logs(v, log, Allocated(v, b), log + {v.sb.BitmapBlock(b), b})
  {
  }

  lemma LogsMark(v: Vol, b: nat, on: bool, log: set<nat>)
    requires Shape(v) && b < v.sb.size
    ensures Logs(v, log, SetMark(v, b, on), log + {v.sb.BitmapBlock(b)})
  {
  }

  lemma LogsBlock(v: Vol, b: nat, data: Block, log: set<nat>)
    requires Shape(v) && b < v.sb.size
    ensures Logs(v, log, WithBlock(v, b, data), log + {b})
  {
  }

  /** A change of inodes alone. */
  lemma LogsInodes(v0: Vol, log0: set<nat>, v: Vol, v': Vol, log: set<nat>)
    requires Logs(v0, log0, v, log) && v'.blocks == v.blocks
    ensures Logs(v0, log0, v', log)
  {
  }

  lemma LogsMore(v0: Vol, log0: set<nat>, v: Vol, log: set<nat>, more: set<nat>)
    requires Logs(v0, log0, v, log)
    ensures Logs(v0, log0, v, log + more)
  {
  }

  /** No inode but i has changed. */
  ghost predicate OnlyInode(v0: Vol, v: Vol, i: nat) {
    |v.inodes| == |v0.inodes| && forall i' :: 0 <= i' < |v.inodes| && i' != i ==> v.inodes[i'] == v0.inodes[i']
  }

  /** What a transaction changed is in the log: blocks, and the block of inode i. */
  ghost predicate Through(v0: Vol, log0: set<nat>, v: Vol, log: set<nat>, i: nat) {
    && Logs(v0, log0, v, log) && v.sb == v0.sb && OnlyInode(v0, v, i)
    && (v.inodes != v0.inodes ==> v0.sb.InodeBlock(i) in log)
  }

  lemma ThroughNothing(v: Vol, log: set<nat>, i: nat)
    ensures Through(v, log, v, log, i)
  {
  }

  /** writei's blocks are logged in its loop, its inode by iupdate. */
  lemma ThroughWrite(v0: Vol, log0: set<nat>, x: Vol, log1: set<nat>, v: Vol, i: nat)
    requires Logs(v0, log0, x, log1) && OnlyInode(v0, x, i) && v.sb == v0.sb
    requires v.blocks == x.blocks && OnlyInode(x, v, i)
    ensures Through(v0, log0, v, log1 + {v.sb.InodeBlock(i)}, i)
  {
  }

  /** The flat-file meaning of a write: data laid over c from off on. */
  function Splice<T>(c: seq<T>, off: nat, data: seq<T>): (r: seq<T>)
    requires off <= |c|
    ensures |r| == if off + |data| > |c| then off + |data| else |c|
  {
    c[..off] + data + if off + |data| <= |c| then c[off + |data|..] else []
  }

  /** Writing in two pieces is writing at once. */
  lemma SpliceTwice<T>(c: seq<T>, off: nat, a: seq<T>, b: seq<T>)
    requires off <= |c|
    ensures Splice(Splice(c, off, a), off + |a|, b) == Splice(c, off, a + b)
  {
  }

  /** Slots of inode i may have been filled in; nothing else about any file changed. */
  ghost predicate Extends(v: Vol, v': Vol, i: nat)
    requires Shape(v)
  {
    && Shape(v') && v'.sb == v.sb && SameMeta(v, v') && SameData(v, v')
    && forall i': nat, k': nat :: IsSlot(v, i', k') && (i' != i || SlotAddr(v, i', k') != 0) ==>
         SlotAddr(v', i', k') == SlotAddr(v, i', k')
  }

  lemma ExtendsShape(v: Vol, v': Vol, i: nat)
    requires Shape(v) && Extends(v, v', i)
    ensures Shape(v') && v'.sb == v.sb && |v'.inodes| == |v.inodes|
  {
  }

  lemma ExtendsNone(v: Vol, i: nat)
    requires Shape(v)
    ensures Extends(v, v, i)
  {
  }

  lemma GrowsExtends(v: Vol, v': Vol, i: nat, k: nat, b: nat)
    requires Shape(v) && Grows(v, v', i, k, b) && SlotAddr(v, i, k) == 0
    ensures Extends(v, v', i)
  {
  }

  /** PutAddr as callers use it. */
  lemma PutAddrExtends(v: Vol, w: map<nat, (nat, nat)>, i: nat, k: nat, b: nat)
    requires Owns(v, w) && b < v.sb.size && !Marked(v, b)
    requires i < |v.inodes| && k <= NDIRECT && SlotAddr(v, i, k) == 0
    ensures var v' := WithAddr(Allocated(v, b), i, k, b);
            && Owns(v', w[b := (i, k)]) && Extends(v, v', i) && SlotAddr(v', i, k) == b != 0
            && OnlySlot(v, v', i, k)
  {
    OwnsShape(v, w);
    hide Owns, Extends, Grows, OnlySlot, SlotAddr, Marked;
    PutAddr(v, w, i, k, b);
    FreeIsData(v, w, b);
    GrowsExtends(v, WithAddr(Allocated(v, b), i, k, b), i, k, b);
    GrowsSlot(v, WithAddr(Allocated(v, b), i, k, b), i, k, b);
  }

  /** PutEntry as callers use it: a is the indirect block. */
  lemma PutEntryExtends(v: Vol, w: map<nat, (nat, nat)>, i: nat, bn: nat, a: nat, b: nat)
    requires Owns(v, w) && b < v.sb.size && !Marked(v, b)
    requires i < |v.inodes| && NDIRECT <= bn < MAXFILE
    requires BlockOf(v, i, bn) == 0 && SlotAddr(v, i, NDIRECT) == a != 0
    ensures a < v.sb.size
    ensures var v' := WithBlock(Allocated(v, b), a, PutWord(v.blocks[a], bn - NDIRECT, b));
            && Owns(v', w[b := (i, bn + 1)]) && Extends(v, v', i) && BlockOf(v', i, bn) == b != 0
            && SlotAddr(v', i, NDIRECT) == a
            && OnlySlot(v, v', i, bn + 1)
  {
    hide Owns, Extends, Grows, OnlySlot, SlotAddr, Marked, BlockOf, EntryPut, WithBlock, Allocated, PutWord;
    OwnsShape(v, w);
    EntryBlock(v, i, bn);
    PutEntry(v, w, i, bn + 1, b);
    FreeIsData(v, w, b);
    SlotIsData(v, w, i, NDIRECT);
    EntryPutIs(v, i, bn, a, b);
    var v' := EntryPut(v, i, bn + 1, b);
    GrowsExtends(v, v', i, bn + 1, b);
    GrowsSlot(v, v', i, bn + 1, b);
    EntryBlock(v', i, bn);
  }

  lemma EntryBlock(v: Vol, i: nat, bn: nat)
    requires Shape(v) && i < |v.inodes| && NDIRECT <= bn < MAXFILE
    ensures BlockOf(v, i, bn) == SlotAddr(v, i, bn + 1)
  {
    hide SlotAddr;
  }

  lemma EntryPutIs(v: Vol, i: nat, bn: nat, a: nat, b: nat)
    requires Shape(v) && i < |v.inodes| && NDIRECT <= bn < MAXFILE && SlotAddr(v, i, NDIRECT) == a < v.sb.size &&
             b < v.sb.size
    ensures EntryPut(v, i, bn + 1, b) == WithBlock(Allocated(v, b), a, PutWord(v.blocks[a], bn - NDIRECT, b))
  {
    hide SlotAddr, PutWord, WithBlock, Allocated;
  }

  lemma GrowsSlot(v: Vol, v': Vol, i: nat, k: nat, b: nat)
    requires Shape(v) && Grows(v, v', i, k, b)
    ensures Shape(v') && |v'.inodes| == |v.inodes| && OnlySlot(v, v', i, k) && SlotAddr(v', i, k) == b
    ensures k != NDIRECT ==> SlotAddr(v', i, NDIRECT) == SlotAddr(v, i, NDIRECT)
  {
  }

  lemma ExtendsTransitive(v: Vol, w: map<nat, (nat, nat)>, u: Vol, x: Vol, i: nat)
    requires Owns(v, w) && Extends(v, u, i) && Extends(u, x, i)
    ensures Extends(v, x, i)
  {
    forall i': nat, k': nat | IsSlot(v, i', k') && k' != NDIRECT && 0 < SlotAddr(v, i', k') < |v.blocks|
      ensures x.blocks[SlotAddr(v, i', k')] == v.blocks[SlotAddr(v, i', k')]
    {
      assert SlotAddr(u, i', k') == SlotAddr(v, i', k');
    }
  }

  /** Filling in slots keeps the bytes of every mapped block. */
  lemma ExtendsKeepsByte(v: Vol, w: map<nat, (nat, nat)>, v': Vol, i: nat, i': nat, p: nat)
    requires Owns(v, w) && Extends(v, v', i) && i' < |v.inodes| && p < MAXBYTES
    requires BlockOf(v, i', p / BSIZE) != 0
    ensures BlockOf(v', i', p / BSIZE) == BlockOf(v, i', p / BSIZE) && ByteAt(v', i', p) == ByteAt(v, i', p)
  {
    var k := SlotOf(p / BSIZE);
    SlotIsData(v, w, i', k);
    assert SlotAddr(v', i', k) == SlotAddr(v, i', k);
  }

  /** The slots of other inodes, and the filled slots of inode i, are as in v0. */
  ghost predicate SlotsKept(v0: Vol, v: Vol, i: nat)
    requires Shape(v0) && Shape(v) && |v.inodes| == |v0.inodes|
  {
    forall i': nat, k: nat :: IsSlot(v0, i', k) && (i' != i || SlotAddr(v0, i', k) != 0) ==>
      SlotAddr(v, i', k) == SlotAddr(v0, i', k)
  }

  /** The bytes of v0's mapped blocks are as in v0, except bytes off..off+tot of inode i. */
  ghost predicate BytesKept(v0: Vol, v: Vol, i: nat, off: nat, tot: nat)
    requires Shape(v0) && Shape(v) && |v.inodes| == |v0.inodes|
  {
    forall i': nat, p: nat :: i' < |v0.inodes| && p < MAXBYTES && BlockOf(v0, i', p / BSIZE) != 0 ==>
      ByteAt(v, i', p) == ByteAt(v0, i', p) || (i' == i && off <= p < off + tot)
  }

  /** Bytes off..off+tot of inode i are mapped and hold the first tot bytes of src. */
  ghost predicate BytesPut(v: Vol, i: nat, off: nat, src: seq<Byte>, tot: nat)
    requires Shape(v) && i < |v.inodes| && tot <= |src| && off + |src| <= MAXBYTES
  {
    forall p: nat :: off <= p < off + tot ==> BlockOf(v, i, p / BSIZE) != 0 && ByteAt(v, i, p) == src[p - off]
  }

  /** Progress of a write of src at off into inode i that started from v0: tot bytes are
      in place, all other bytes of mapped blocks and all other files are as in v0. */
  ghost predicate Wrote(v0: Vol, v: Vol, i: nat, off: nat, src: seq<Byte>, tot: nat)
    requires Shape(v0) && i < |v0.inodes|
  {
    && Shape(v) && v.sb == v0.sb && SameMeta(v0, v) && tot <= |src| && off + |src| <= MAXBYTES
    && SlotsKept(v0, v, i) && BytesKept(v0, v, i, off, tot) && BytesPut(v, i, off, src, tot)
  }

  lemma WroteFits(v0: Vol, v: Vol, i: nat, off: nat, src: seq<Byte>, tot: nat)
    requires Shape(v0) && i < |v0.inodes| && Wrote(v0, v, i, off, src, tot)
    ensures off + |src| <= MAXBYTES && Shape(v) && v.sb == v0.sb && |v.inodes| == |v0.inodes|
  {
  }

  lemma WroteInode(v0: Vol, v: Vol, i: nat, off: nat, src: seq<Byte>, tot: nat)
    requires Shape(v0) && i < |v0.inodes| && Wrote(v0, v, i, off, src, tot)
    ensures OnlyInode(v0, v, i)
  {
    hide BytesKept, BytesPut;
    forall i': nat | i' < |v.inodes| && i' != i ensures v.inodes[i'] == v0.inodes[i'] {
      var a, a0 := v.inodes[i'].addrs, v0.inodes[i'].addrs;
      forall k: nat | k <= NDIRECT ensures a[k] == a0[k] {
        assert SlotAddr(v, i', k) == SlotAddr(v0, i', k);
      }
      assert a == a0;
    }
  }

  lemma WroteNothing(v: Vol, i: nat, off: nat, src: seq<Byte>)
    requires Shape(v) && i < |v.inodes| && off + |src| <= MAXBYTES
    ensures Wrote(v, v, i, off, src, 0)
  {
  }

  lemma WroteExtends(v0: Vol, w0: map<nat, (nat, nat)>, v: Vol, w: map<nat, (nat, nat)>, v': Vol,
                     i: nat, off: nat, src: seq<Byte>, tot: nat)
    requires Owns(v0, w0) && Owns(v, w) && i < |v0.inodes|
    requires Wrote(v0, v, i, off, src, tot) && Extends(v, v', i)
    ensures Wrote(v0, v', i, off, src, tot)
  {
    forall i': nat, p: nat | i' < |v0.inodes| && p < MAXBYTES && BlockOf(v0, i', p / BSIZE) != 0
      ensures ByteAt(v', i', p) == ByteAt(v0, i', p) || (i' == i && off <= p < off + tot)
    {
      assert BlockOf(v, i', p / BSIZE) == BlockOf(v0, i', p / BSIZE);
      ExtendsKeepsByte(v, w, v', i, i', p);
    }
    forall p: nat | off <= p < off + tot
      ensures BlockOf(v', i, p / BSIZE) != 0 && ByteAt(v', i, p) == src[p - off]
    {
      ExtendsKeepsByte(v, w, v', i, i, p);
    }
  }

  /** Block a with m bytes of src from s on laid over it at position q. */
  function Patched(b: Block, q: nat, src: seq<Byte>, s: nat, m: nat): Block
    requires q + m <= BSIZE && s + m <= |src|
  {
    b[..q] + src[s..s + m] + b[q + m..]
  }

  /** Where one patched block shows up among all bytes of all files. */
  lemma PatchByte(v: Vol, w: map<nat, (nat, nat)>, i: nat, bn: nat, q: nat, src: seq<Byte>, s: nat, m: nat,
                  i': nat, p: nat)
    requires Owns(v, w) && i < |v.inodes| && i' < |v.inodes| && bn < MAXFILE && p < MAXBYTES
    requires q + m <= BSIZE && s + m <= |src|
    requires 0 < BlockOf(v, i, bn) < v.sb.size && BlockOf(v, i', p / BSIZE) != 0
    ensures var a := BlockOf(v, i, bn);
            var v' := WithBlock(v, a, Patched(v.blocks[a], q, src, s, m));
            ByteAt(v', i', p) == if i' == i && bn * BSIZE + q <= p < bn * BSIZE + q + m
                                 then src[s + p - bn * BSIZE - q] else ByteAt(v, i', p)
  {
    var a, data := BlockOf(v, i, bn), Patched(v.blocks[BlockOf(v, i, bn)], q, src, s, m);
    var v', a', r := WithBlock(v, a, data), BlockOf(v, i', p / BSIZE), p % BSIZE;
    PokeKeeps(v, w, i, SlotOf(bn), data);
    assert BlockOf(v', i', p / BSIZE) == a';
    assert p == p / BSIZE * BSIZE + r;
    SlotIsData(v, w, i', SlotOf(p / BSIZE));
    if a == a' {
      assert w[a] == (i, SlotOf(bn)) && w[a'] == (i', SlotOf(p / BSIZE));
      assert bn == p / BSIZE;
    }
  }

  /** Copying m more bytes, all inside one mapped block, makes m bytes of progress. */
  lemma WrotePatch(v0: Vol, w0: map<nat, (nat, nat)>, v: Vol, w: map<nat, (nat, nat)>,
                   i: nat, off: nat, src: seq<Byte>, tot: nat, m: nat)
    requires Owns(v0, w0) && Owns(v, w) && i < |v0.inodes|
    requires Wrote(v0, v, i, off, src, tot) && tot + m <= |src|
    requires m > 0 && (off + tot) % BSIZE + m <= BSIZE
    requires BlockOf(v, i, (off + tot) / BSIZE) != 0
    ensures BlockOf(v, i, (off + tot) / BSIZE) < v.sb.size
    ensures var a := BlockOf(v, i, (off + tot) / BSIZE);
            var v' := WithBlock(v, a, Patched(v.blocks[a], (off + tot) % BSIZE, src, tot, m));
            && Owns(v', w) && Wrote(v0, v', i, off, src, tot + m)
            && forall k: nat :: k < NSLOTS ==> SlotAddr(v', i, k) == SlotAddr(v, i, k)
  {
    hide ByteAt, Patched, Owns, SlotAddr, SlotsKept, BlockOf, SameMeta, BytesKept, BytesPut;
    OwnsShape(v0, w0);
    OwnsShape(v, w);
    WroteFits(v0, v, i, off, src, tot);
    var bn, q := (off + tot) / BSIZE, (off + tot) % BSIZE;
    BlockIsSlot(v, i, bn);
    SlotIsData(v, w, i, SlotOf(bn));
    var a := BlockOf(v, i, bn);
    var data := Patched(v.blocks[a], q, src, tot, m);
    var v' := WithBlock(v, a, data);
    PokeKeeps(v, w, i, SlotOf(bn), data);
    PokeSlots(v0, v, v', i);
    PatchBytesKept(v0, v, w, i, off, src, tot, m);
    PatchBytesPut(v0, v, w, i, off, src, tot, m);
  }

  lemma BlockIsSlot(v: Vol, i: nat, bn: nat)
    requires Shape(v) && i < |v.inodes| && bn < MAXFILE
    ensures IsSlot(v, i, SlotOf(bn)) && SlotOf(bn) != NDIRECT && BlockOf(v, i, bn) == SlotAddr(v, i, SlotOf(bn))
  {
    hide SlotAddr;
  }

  lemma PokeSlots(v0: Vol, v: Vol, v': Vol, i: nat)
    requires Shape(v0) && Shape(v) && Shape(v') && |v.inodes| == |v0.inodes| && v'.inodes == v.inodes && i < |v.inodes|
    requires SlotsKept(v0, v, i) && SameMeta(v0, v)
    requires forall i': nat, k: nat :: IsSlot(v, i', k) ==> SlotAddr(v', i', k) == SlotAddr(v, i', k)
    ensures SlotsKept(v0, v', i) && SameMeta(v0, v')
    ensures forall k: nat :: k < NSLOTS ==> SlotAddr(v', i, k) == SlotAddr(v, i, k)
    ensures forall b: nat :: b < MAXFILE ==> BlockOf(v', i, b) == BlockOf(v, i, b)
  {
    hide SlotAddr;
    forall b: nat | b < MAXFILE ensures BlockOf(v', i, b) == BlockOf(v, i, b) {
      assert IsSlot(v, i, SlotOf(b));
    }
    forall k: nat | k < NSLOTS ensures SlotAddr(v', i, k) == SlotAddr(v, i, k) {
      assert IsSlot(v, i, k);
    }
  }

  lemma PatchBytesKept(v0: Vol, v: Vol, w: map<nat, (nat, nat)>, i: nat, off: nat, src: seq<Byte>, tot: nat, m: nat)
    requires Shape(v0) && Owns(v, w) && i < |v0.inodes| && Wrote(v0, v, i, off, src, tot) && tot + m <= |src|
    requires (off + tot) % BSIZE + m <= BSIZE && (off + tot) / BSIZE < MAXFILE &&
             0 < BlockOf(v, i, (off + tot) / BSIZE) < v.sb.size
    ensures var a := BlockOf(v, i, (off + tot) / BSIZE);
            BytesKept(v0, WithBlock(v, a, Patched(v.blocks[a], (off + tot) % BSIZE, src, tot, m)), i, off, tot + m)
  {
    hide ByteAt, Patched, Owns, SlotAddr, BlockOf, Wrote;
    WroteFits(v0, v, i, off, src, tot);
    var a := BlockOf(v, i, (off + tot) / BSIZE);
    var v' := WithBlock(v, a, Patched(v.blocks[a], (off + tot) % BSIZE, src, tot, m));
    forall i': nat, p: nat | i' < |v0.inodes| && p < MAXBYTES && BlockOf(v0, i', p / BSIZE) != 0
      ensures ByteAt(v', i', p) == ByteAt(v0, i', p) || (i' == i && off <= p < off + (tot + m))
    {
      PatchKept(v0, v, w, i, off, src, tot, m, i', p);
    }
  }

  lemma PatchBytesPut(v0: Vol, v: Vol, w: map<nat, (nat, nat)>, i: nat, off: nat, src: seq<Byte>, tot: nat, m: nat)
    requires Shape(v0) && Owns(v, w) && i < |v0.inodes| && Wrote(v0, v, i, off, src, tot) && tot + m <= |src|
    requires (off + tot) % BSIZE + m <= BSIZE && (off + tot) / BSIZE < MAXFILE &&
             0 < BlockOf(v, i, (off + tot) / BSIZE) < v.sb.size
    requires var a := BlockOf(v, i, (off + tot) / BSIZE);
             var v' := WithBlock(v, a, Patched(v.blocks[a], (off + tot) % BSIZE, src, tot, m));
             forall b: nat :: b < MAXFILE ==> BlockOf(v', i, b) == BlockOf(v, i, b)
    ensures off + |src| <= MAXBYTES
    ensures var a := BlockOf(v, i, (off + tot) / BSIZE);
            BytesPut(WithBlock(v, a, Patched(v.blocks[a], (off + tot) % BSIZE, src, tot, m)), i, off, src, tot + m)
  {
    hide ByteAt, Patched, Owns, SlotAddr, BlockOf, Wrote;
    WroteFits(v0, v, i, off, src, tot);
    var a := BlockOf(v, i, (off + tot) / BSIZE);
    var v' := WithBlock(v, a, Patched(v.blocks[a], (off + tot) % BSIZE, src, tot, m));
    forall p: nat | off <= p < off + (tot + m)
      ensures BlockOf(v', i, p / BSIZE) != 0 && ByteAt(v', i, p) == src[p - off]
    {
      PatchPut(v0, v, w, i, off, src, tot, m, p);
    }
  }

  lemma PatchKept(v0: Vol, v: Vol, w: map<nat, (nat, nat)>, i: nat, off: nat, src: seq<Byte>, tot: nat, m: nat, i': nat,
                  p: nat)
    requires Shape(v0) && Owns(v, w) && i < |v0.inodes| && Wrote(v0, v, i, off, src, tot) && tot + m <= |src|
    requires (off + tot) % BSIZE + m <= BSIZE && (off + tot) / BSIZE < MAXFILE &&
             0 < BlockOf(v, i, (off + tot) / BSIZE) < v.sb.size
    requires i' < |v0.inodes| && p < MAXBYTES && BlockOf(v0, i', p / BSIZE) != 0
    ensures var a := BlockOf(v, i, (off + tot) / BSIZE);
            var v' := WithBlock(v, a, Patched(v.blocks[a], (off + tot) % BSIZE, src, tot, m));
            ByteAt(v', i', p) == ByteAt(v0, i', p) || (i' == i && off <= p < off + (tot + m))
  {
    var bn, q := (off + tot) / BSIZE, (off + tot) % BSIZE;
    assert off + tot == bn * BSIZE + q;
    assert BlockOf(v, i', p / BSIZE) == BlockOf(v0, i', p / BSIZE);
    PatchByte(v, w, i, bn, q, src, tot, m, i', p);
    hide Owns, ByteAt, Patched, SlotAddr;
  }

  lemma PatchPut(v0: Vol, v: Vol, w: map<nat, (nat, nat)>, i: nat, off: nat, src: seq<Byte>, tot: nat, m: nat, p: nat)
    requires Shape(v0) && Owns(v, w) && i < |v0.inodes| && Wrote(v0, v, i, off, src, tot) && tot + m <= |src|
    requires (off + tot) % BSIZE + m <= BSIZE && (off + tot) / BSIZE < MAXFILE &&
             0 < BlockOf(v, i, (off + tot) / BSIZE) < v.sb.size
    requires off <= p < off + (tot + m)
    ensures BlockOf(v, i, p / BSIZE) != 0
    ensures var a := BlockOf(v, i, (off + tot) / BSIZE);
            var v' := WithBlock(v, a, Patched(v.blocks[a], (off + tot) % BSIZE, src, tot, m));
            ByteAt(v', i, p) == src[p - off]
  {
    var bn, q := (off + tot) / BSIZE, (off + tot) % BSIZE;
    assert off + tot == bn * BSIZE + q;
    assert p >= off + tot ==> p / BSIZE == bn;
    PatchByte(v, w, i, bn, q, src, tot, m, i, p);
    hide Owns, ByteAt, Patched, SlotAddr;
  }

  function WithSize(v: Vol, i: nat, size: nat): (v': Vol)
    requires Shape(v) && i < |v.inodes| && size <= MAXBYTES
    ensures Shape(v')
  {
    var ip := v.inodes[i];
    Vol(v.sb, v.blocks, v.inodes[i := Inode(ip.typ, ip.major, ip.minor, ip.nlink, size, ip.addrs)])
  }

  function Max(a: nat, b: nat): nat {
    if a < b then b else a
  }

  lemma WithSameSize(v: Vol, i: nat)
    requires Shape(v) && i < |v.inodes|
    ensures WithSize(v, i, v.inodes[i].size) == v
  {
    assert v.inodes[i := v.inodes[i]] == v.inodes;
  }

  lemma WithSizeKeeps(v: Vol, w: map<nat, (nat, nat)>, i: nat, size: nat)
    requires Owns(v, w) && i < |v.inodes| && size <= MAXBYTES
    ensures var v' := WithSize(v, i, size);
            Owns(v', w) && forall i': nat, k: nat :: IsSlot(v, i', k) ==> SlotAddr(v', i', k) == SlotAddr(v, i', k)
  {
    var v' := WithSize(v, i, size);
    forall i': nat, k: nat | IsSlot(v, i', k) ensures SlotAddr(v', i', k) == SlotAddr(v, i', k) {
    }
    forall c: nat | c < v.sb.size ensures Marked(v', c) == Marked(v, c) {
      SameBitmapBlock(v, v', c);
    }
  }

  /** The end of a write: c bytes were copied in, size follows the first tot of them. */
  lemma WroteContents(v0: Vol, w0: map<nat, (nat, nat)>, v: Vol, w: map<nat, (nat, nat)>,
                      i: nat, off: nat, src: seq<Byte>, c: nat, tot: nat)
    requires Consistent(v0, w0) && Owns(v, w) && i < |v0.inodes| && off <= v0.inodes[i].size
    requires Wrote(v0, v, i, off, src, c) && tot <= c
    ensures var v' := WithSize(v, i, Max(v0.inodes[i].size, off + tot));
            && Consistent(v', w)
            && Contents(v', i) == Splice(Contents(v0, i), off, src[..c])[..Max(v0.inodes[i].size, off + tot)]
            && forall i' :: 0 <= i' < |v0.inodes| && i' != i ==> Contents(v', i') == Contents(v0, i')
  {
    var size := Max(v0.inodes[i].size, off + tot);
    var v' := WithSize(v, i, size);
    WithSizeKeeps(v, w, i, size);
    forall i' | 0 <= i' < |v0.inodes| ensures NoHoles(v', i') {
      WroteNoHoles(v0, v, i, off, src, c, tot, i');
    }
    forall i' | 0 <= i' < |v0.inodes| && i' != i ensures Contents(v', i') == Contents(v0, i') {
      OtherContents(v0, v, i, off, src, c, size, i');
    }
    OwnContents(v0, v, i, off, src, c, tot);
  }

  lemma WroteNoHoles(v0: Vol, v: Vol, i: nat, off: nat, src: seq<Byte>, c: nat, tot: nat, i': nat)
    requires Shape(v0) && i < |v0.inodes| && i' < |v0.inodes| && off <= v0.inodes[i].size
    requires NoHoles(v0, i') && Wrote(v0, v, i, off, src, c) && tot <= c
    ensures NoHoles(WithSize(v, i, Max(v0.inodes[i].size, off + tot)), i')
  {
    var v' := WithSize(v, i, Max(v0.inodes[i].size, off + tot));
    forall bn: nat | bn * BSIZE < v'.inodes[i'].size && bn < MAXFILE
      ensures BlockOf(v', i', bn) != 0
    {
      assert BlockOf(v', i', bn) == BlockOf(v, i', bn);
      if bn * BSIZE < v0.inodes[i'].size {
        assert BlockOf(v0, i', bn) != 0;
      } else {
        assert off <= bn * BSIZE < off + c && bn * BSIZE / BSIZE == bn;
      }
    }
  }

  lemma OtherContents(v0: Vol, v: Vol, i: nat, off: nat, src: seq<Byte>, c: nat, size: nat, i': nat)
    requires Shape(v0) && i < |v0.inodes| && i' < |v0.inodes| && i' != i && size <= MAXBYTES
    requires NoHoles(v0, i') && Wrote(v0, v, i, off, src, c)
    ensures Contents(WithSize(v, i, size), i') == Contents(v0, i')
  {
    var v' := WithSize(v, i, size);
    forall p | 0 <= p < v0.inodes[i'].size ensures ByteAt(v', i', p) == ByteAt(v0, i', p) {
      assert p / BSIZE * BSIZE <= p;
      assert BlockOf(v0, i', p / BSIZE) != 0;
      assert ByteAt(v', i', p) == ByteAt(v, i', p);
    }
  }

  lemma OwnContents(v0: Vol, v: Vol, i: nat, off: nat, src: seq<Byte>, c: nat, tot: nat)
    requires Shape(v0) && i < |v0.inodes| && off <= v0.inodes[i].size
    requires NoHoles(v0, i) && Wrote(v0, v, i, off, src, c) && tot <= c
    ensures var size := Max(v0.inodes[i].size, off + tot);
            Contents(WithSize(v, i, size), i) == Splice(Contents(v0, i), off, src[..c])[..size]
  {
    var size := Max(v0.inodes[i].size, off + tot);
    var v' := WithSize(v, i, size);
    var r := Splice(Contents(v0, i), off, src[..c]);
    forall p | 0 <= p < size ensures ByteAt(v', i, p) == r[p] {
      assert ByteAt(v', i, p) == ByteAt(v, i, p);
      if off <= p < off + c {
        assert r[p] == src[p - off];
      } else {
        assert p / BSIZE * BSIZE <= p;
        assert BlockOf(v0, i, p / BSIZE) != 0;
        assert r[p] == ByteAt(v0, i, p);
      }
    }
  }
}
