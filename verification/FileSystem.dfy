/** The block and file layer of kernel/fs.c and the chunked writer of kernel/file.c, as
    methods that update the cached volume in place. `logged` collects the blocks passed
    to log_write since the operation began. */
module FileSystem {
  import opened Blocks
  import opened Volume
  import opened VolumeProofs
  import opened BlockNeeds
  import opened Files
  import opened Truncate
  import RedoLog

  datatype Found = Addr(a: nat) | Stop(message: string)

  /** A kernel return value, or the panic that was raised instead. */
  datatype Ret = Val(n: int) | Panic(message: string)

  /** What a user or kernel buffer offers to either_copyin: its bytes, of which those from
      index reach on cannot be read. */
  datatype Source = Source(bytes: seq<Byte>, reach: nat)

  class Fs {
    var v: Vol
    var dinodes: seq<Inode>   // the inodes as they stand in their disk blocks
    var logged: set<nat>
    ghost var w: map<nat, (nat, nat)>

    ghost predicate Valid()
      reads this
    {
      Shape(v) && Consistent(v, w) && |dinodes| == |v.inodes|
    }

    /** The scan of balloc: the first free block, or -1. */
    method FirstFree() returns (r: int)
      requires Shape(v)
      ensures 0 <= r ==> r < v.sb.size && !Marked(v, r) && forall c: nat :: c < r ==> Marked(v, c)
      ensures r < 0 ==> forall c: nat :: c < v.sb.size ==> Marked(v, c)
    {
      hide Marked, BlockBit;
      var b := 0;
      while b < v.sb.size
        invariant b % BPB == 0
        invariant forall c: nat :: c < b && c < v.sb.size ==> Marked(v, c)
      {
        MarkAt(v, b, 0);
        var bp := v.blocks[v.sb.BitmapBlock(b)];
        var bi := 0;
        while bi < BPB && b + bi < v.sb.size
          invariant bi <= BPB
          invariant forall c: nat :: c < b + bi && c < v.sb.size ==> Marked(v, c)
        {
          MarkAt(v, b, bi);
          if !BlockBit(bp, bi) {
            return b + bi;
          }
          bi := bi + 1;
        }
        b := b + BPB;
      }
      return -1;
    }

    /** balloc: first fit over the bitmap, and the block is zeroed. */
    method Balloc() returns (r: Found)
      requires Shape(v)
      modifies this`v, this`logged
      ensures r.Addr? ==> && r.a < old(v).sb.size && !Marked(old(v), r.a)
                          && (forall c: nat :: c < r.a ==> Marked(old(v), c))
                          && v == Allocated(old(v), r.a)
                          && logged == old(logged) + {v.sb.BitmapBlock(r.a), r.a}
                          && Logs(old(v), old(logged), v, logged)
      ensures r.Stop? ==> v == old(v) && logged == old(logged) && forall c: nat :: c < v.sb.size ==> Marked(v, c)
    {
      var b := FirstFree();
      if b < 0 {
        return Stop("balloc: out of blocks");
      }
      LogsAllocated(v, b, logged);
      var bb, bi := v.sb.BitmapBlock(b), b % BPB;
      v := Vol(v.sb, v.blocks[bb := WithBit(v.blocks[bb], bi, true)], v.inodes);
      logged := logged + {bb};
      Bzero(b);
      return Addr(b);
    }

    method Bzero(b: nat)
      requires Shape(v) && b < v.sb.size
      modifies this`v, this`logged
      ensures v == WithBlock(old(v), b, ZeroBlock()) && logged == old(logged) + {b}
    {
      v := WithBlock(v, b, ZeroBlock());
      logged := logged + {b};
    }

    /** bfree; false is the "freeing free block" panic. */
    method Bfree(b: nat) returns (ok: bool)
      requires Shape(v) && b < v.sb.size
      modifies this`v, this`logged
      ensures ok == Marked(old(v), b)
      ensures ok ==> v == SetMark(old(v), b, false) && logged == old(logged) + {v.sb.BitmapBlock(b)}
      ensures !ok ==> v == old(v) && logged == old(logged)
      ensures LogsBits(old(v), old(logged), v, logged)
    {
      LogsBitsMark(v, b, logged);
      LogsBitsNone(v, logged);
      var bb, bi := v.sb.BitmapBlock(b), b % BPB;
      if !BlockBit(v.blocks[bb], bi) {
        return false;
      }
      v := Vol(v.sb, v.blocks[bb := WithBit(v.blocks[bb], bi, false)], v.inodes);
      logged := logged + {bb};
      return true;
    }

    /** bmap: the block of file position bn, allocated if there is none. */
    method Bmap(i: nat, bn: nat) returns (r: Found, ghost bits: set<nat>)
      requires Owns(v, w) && i < |v.inodes|
      modifies this`v, this`w, this`logged
      ensures bn >= MAXFILE ==> r == Stop("bmap: out of range")
      ensures r.Addr? ==> && bn < MAXFILE && Owns(v, w) && Extends(old(v), v, i)
                          && BlockOf(v, i, bn) == r.a != 0
                          && IndirectKept(old(v), v, i, bn)
                          && |bits| <= FreshBlocks(old(v), i, bn)
                          && logged <= old(logged) + bits + {r.a} + IndirectOf(v, i, bn)
      ensures bn < MAXFILE && BlockOf(old(v), i, bn) != 0 ==>
                r.Addr? && v == old(v) && w == old(w) && logged == old(logged)
      ensures r.Addr? ==>
                MappedFrom(old(v), v, i, bn, 1) && Room(v, w) == Room(old(v), old(w)) - FreshBlocks(old(v), i, bn)
      ensures r.Addr? ==> Logs(old(v), old(logged), v, logged)
      ensures bn < MAXFILE && r.Stop? ==> AllMarked(v) && Room(old(v), old(w)) < FreshBlocks(old(v), i, bn)
      ensures bn < MAXFILE ==> (r.Addr? <==> Room(old(v), old(w)) >= FreshBlocks(old(v), i, bn))
    {
      hide Owns, SlotAddr, BlockOf, MappedFrom, Extends, IndirectKept, FreshBlocks, OnlySlot, AllMarked, Marked, Room,
           Logs, IndirectOf;
      ghost var v0, w0, log0 := v, w, logged;
      OwnsShape(v, w);
      IndirectIs(v, i, bn);
      if bn < NDIRECT {
        r, bits := EnsureAddr(i, bn);
        if r.Addr? {
          OwnsShape(v, w);
          DirectMapped(v0, v, i, bn);
          IndirectIs(v, i, bn);
        }
        DirectFresh(v0, i, bn);
        return;
      }
      if bn - NDIRECT < NINDIRECT {
        r, bits := EnsureAddr(i, NDIRECT);
        OnlyNothing(v0, i, NDIRECT);
        IndirectFresh(v0, if r.Addr? then v else v0, i, bn);
        if r.Stop? { return; }
        ghost var v1, bits0, log1 := v, bits, logged;
        r, bits := BmapEntry(i, bn);
        if r.Addr? {
          OwnsShape(v, w);
          IndirectIs(v, i, bn);
          LogsOn(v0, log0, v1, log1, v, logged);
          ExtendsTransitive(v0, w0, v1, v, i);
          IndirectMapped(v0, v1, v, i, bn);
          CardUnion(bits0, bits);
          bits := bits0 + bits;
        }
        return;
      }
      return Stop("bmap: out of range"), {};
    }

    /** `if((addr = ip->addrs[k]) == 0) ip->addrs[k] = addr = balloc(ip->dev)` */
    method EnsureAddr(i: nat, k: nat) returns (r: Found, ghost bits: set<nat>)
      requires Owns(v, w) && i < |v.inodes| && k <= NDIRECT
      modifies this`v, this`w, this`logged
      ensures r.Addr? ==> && Owns(v, w) && Extends(old(v), v, i) && SlotAddr(v, i, k) == r.a != 0
                          && OnlySlot(old(v), v, i, k) && |v.inodes| == |old(v).inodes|
                          && |bits| <= (if SlotAddr(old(v), i, k) == 0 then 1 else 0)
                          && logged <= old(logged) + bits + {r.a}
                          && Logs(old(v), old(logged), v, logged)
      ensures SlotAddr(old(v), i, k) != 0 ==> r.Addr? && v == old(v) && w == old(w) && logged == old(logged)
      ensures r.Addr? ==> 0 <= Room(v, w) == Room(old(v), old(w)) - (if SlotAddr(old(v), i, k) == 0 then 1 else 0)
      ensures r.Stop? ==> v == old(v) && w == old(w) && AllMarked(v) && Room(v, w) == 0
    {
      hide Owns, Extends, Marked, Logs;
      bits := {};
      ghost var v0, w0, log0 := v, w, logged;
      LogsNothing(v, logged);
      OwnsShape(v, w);
      OnlyNothing(v, i, k);
      RoomIs(v, w);
      ExtendsNone(v, i);
      if v.inodes[i].addrs[k] == 0 {
        r := Balloc();
        if r.Stop? {
          RoomAllMarked(v, w);
          return;
        }
        RoomTaken(v0, w0, r.a, (i, k));
        bits := {v.sb.BitmapBlock(r.a)};
        ghost var u := v;
        v := WithAddr(v, i, k, r.a);
        LogsInodes(v0, log0, u, v, logged);
        w := w[r.a := (i, k)];
        PutAddrExtends(v0, w0, i, k, r.a);
        RoomIs(v, w);
        return;
      }
      return Addr(v.inodes[i].addrs[k]), {};
    }

    /** The second half of bmap: the entry of an indirect block that is there. */
    method BmapEntry(i: nat, bn: nat) returns (r: Found, ghost bits: set<nat>)
      requires Owns(v, w) && i < |v.inodes| && NDIRECT <= bn < MAXFILE && SlotAddr(v, i, NDIRECT) != 0
      modifies this`v, this`w, this`logged
      ensures r.Addr? ==> && Owns(v, w) && Extends(old(v), v, i) && BlockOf(v, i, bn) == r.a != 0
                          && SlotAddr(v, i, NDIRECT) == SlotAddr(old(v), i, NDIRECT) && |v.inodes| == |old(v).inodes|
                          && |bits| <= (if BlockOf(old(v), i, bn) == 0 then 1 else 0)
                          && logged <= old(logged) + bits + {r.a, SlotAddr(v, i, NDIRECT)}
                          && Logs(old(v), old(logged), v, logged)
      ensures BlockOf(old(v), i, bn) != 0 ==> r.Addr? && v == old(v) && w == old(w) && logged == old(logged)
      ensures r.Addr? ==> 0 <= Room(v, w) == Room(old(v), old(w)) - (if BlockOf(old(v), i, bn) == 0 then 1 else 0)
      ensures r.Addr? ==> OnlySlot(old(v), v, i, bn + 1)
      ensures r.Stop? ==> v == old(v) && w == old(w) && AllMarked(v) && Room(v, w) == 0 && BlockOf(v, i, bn) == 0
    {
      hide Owns, Extends, Marked, OnlySlot, SlotAddr, BlockOf, Word, PutWord, AllMarked, Logs;
      bits := {};
      OwnsShape(v, w);
      OnlyNothing(v, i, bn + 1);
      RoomIs(v, w);
      ExtendsNone(v, i);
      LogsNothing(v, logged);
      EntryIs(v, w, i, bn);
      var a := v.inodes[i].addrs[NDIRECT];
      var addr := Word(v.blocks[a], bn - NDIRECT);
      if addr == 0 {
        r, bits := AddEntry(i, bn, a);
        return;
      }
      return Addr(addr), {};
    }

    /** A new block, entered in the indirect block a. */
    method AddEntry(i: nat, bn: nat, a: nat) returns (r: Found, ghost bits: set<nat>)
      requires Owns(v, w) && i < |v.inodes| && NDIRECT <= bn < MAXFILE && SlotAddr(v, i, NDIRECT) == a != 0
      requires BlockOf(v, i, bn) == 0 && a < |v.blocks|
      modifies this`v, this`w, this`logged
      ensures r.Addr? ==> && Owns(v, w) && Extends(old(v), v, i) && BlockOf(v, i, bn) == r.a != 0
                          && SlotAddr(v, i, NDIRECT) == a && OnlySlot(old(v), v, i, bn + 1)
                          && |v.inodes| == |old(v).inodes|
                          && |bits| <= 1 && logged <= old(logged) + bits + {r.a, a}
                          && Logs(old(v), old(logged), v, logged)
                          && 0 <= Room(v, w) == Room(old(v), old(w)) - 1
      ensures r.Stop? ==> v == old(v) && w == old(w) && AllMarked(v) && Room(v, w) == 0
    {
      hide Owns, Extends, Marked, OnlySlot, SlotAddr, BlockOf, Word, PutWord, Unmarked, Logs;
      bits := {};
      ghost var v0, w0, log0 := v, w, logged;
      OwnsShape(v, w);
      var bp := v.blocks[a];
      r := Balloc();
      if r.Stop? {
        RoomAllMarked(v, w);
        return;
      }
      RoomTaken(v0, w0, r.a, (i, bn + 1));
      bits := {v.sb.BitmapBlock(r.a)};
      PutEntryExtends(v0, w0, i, bn, a, r.a);
      ghost var u, log1 := v, logged;
      LogsBlock(v, a, PutWord(bp, bn - NDIRECT, r.a), logged);
      v := WithBlock(v, a, PutWord(bp, bn - NDIRECT, r.a));
      logged := logged + {a};
      LogsOn(v0, log0, u, log1, v, logged);
      w := w[r.a := (i, bn + 1)];
      RoomIs(v, w);
    }

    method Iupdate(i: nat)
      requires i < |v.inodes| == |dinodes|
      modifies this`dinodes, this`logged
      ensures dinodes == old(dinodes)[i := v.inodes[i]] && logged == old(logged) + {v.sb.InodeBlock(i)}
    {
      dinodes := dinodes[i := v.inodes[i]];
      logged := logged + {v.sb.InodeBlock(i)};
    }

    /** One block's worth of readi: bread of the mapped block, then m of its bytes. */
    method ReadPiece(i: nat, at: nat, m: nat) returns (piece: seq<Byte>)
      requires Valid() && i < |v.inodes| && at < v.inodes[i].size && at + m <= v.inodes[i].size
      requires at % BSIZE + m <= BSIZE
      modifies this`v, this`w, this`logged
      ensures v == old(v) && w == old(w) && logged == old(logged)
      ensures piece == Contents(v, i)[at..at + m]
    {
      MappedBelowSize(v, i, at);
      var r, _ := Bmap(i, at / BSIZE);
      ReadBlock(v, w, i, at, m);
      piece := v.blocks[r.a][at % BSIZE..at % BSIZE + m];
    }

    /** readi into a buffer that can take reach bytes: returns the clipped length whatever
        was copied, and never changes the volume. */
    method Readi(i: nat, off: nat, n: nat, reach: nat) returns (ret: Ret, dst: seq<Byte>)
      requires Valid() && i < |v.inodes| && off < UINT_LIMIT && n < UINT_LIMIT
      modifies this`v, this`w, this`logged
      ensures v == old(v) && w == old(w) && logged == old(logged)
      ensures ret == Val(-1) <==> off > v.inodes[i].size || off + n >= UINT_LIMIT
      ensures ret == Val(-1) ==> dst == []
      ensures ret != Val(-1) ==>
                var k := Min(n, v.inodes[i].size - off);
                ret == Val(k) && dst == Contents(v, i)[off..off + Min(k, reach)]
    {
      dst := [];
      WrapCheck(off, n);
      if off > v.inodes[i].size || (off + n) % UINT_LIMIT < off {
        return Val(-1), [];
      }
      var len := n;
      if off + n > v.inodes[i].size {
        len := v.inodes[i].size - off;
      }
      dst := ReadLoop(i, off, len, reach);
      return Val(len), dst;
    }

    /** The copy loop of readi over a range inside the file. */
    method ReadLoop(i: nat, off: nat, len: nat, reach: nat) returns (dst: seq<Byte>)
      requires Valid() && i < |v.inodes| && off + len <= v.inodes[i].size
      modifies this`v, this`w, this`logged
      ensures v == old(v) && w == old(w) && logged == old(logged)
      ensures dst == Contents(v, i)[off..off + Min(len, reach)]
    {
      hide Owns, NoHoles, Contents;
      ghost var file := Contents(v, i);
      dst := [];
      var tot, at := 0, off;
      while tot < len
        invariant v == old(v) && w == old(w) && logged == old(logged)
        invariant tot <= len && tot <= reach && at == off + tot && dst == file[off..at]
      {
        var m := Chunk(len - tot, at);
        var piece := ReadPiece(i, at, m);
        assert piece == file[at..at + m];
        if tot + m > reach {
          dst := dst + piece[..reach - tot];
          SliceJoin(file, off, at, at + m, off + reach);
          return;
        }
        dst := dst + piece;
        SliceJoin(file, off, at, at + m, at + m);
        tot, at := tot + m, at + m;
      }
    }

    /** One pass of writei's loop: map the block, then copy up to m bytes into it; a copy
        that fails part-way leaves its first bytes in the buffer and logs nothing. */
    method WriteChunk(i: nat, off: nat, src: Source, tot: nat, m: nat,
                      ghost v0: Vol, ghost w0: map<nat, (nat, nat)>)
      returns (r: Found, copied: nat, ghost bits: set<nat>)
      requires Shape(v0) && Shape(v) && Owns(v0, w0) && Owns(v, w) && i < |v0.inodes|
      requires Wrote(v0, v, i, off, src.bytes, tot) && tot <= src.reach
      requires 0 < m && tot + m <= |src.bytes| && (off + tot) % BSIZE + m <= BSIZE
      modifies this`v, this`w, this`logged
      ensures r.Addr? ==> && copied == Min(m, src.reach - tot)
                          && Shape(v) && |v.inodes| == |v0.inodes| && v.sb == v0.sb
                          && Owns(v, w) && Wrote(v0, v, i, off, src.bytes, tot + copied)
      ensures r.Addr? ==> var bn := (off + tot) / BSIZE;
                          && IndirectKept(old(v), v, i, bn)
                          && |bits| <= FreshBlocks(old(v), i, bn)
                          && logged <= old(logged) + bits + {r.a} + IndirectOf(v, i, bn)
      ensures r.Addr? ==> var bn := (off + tot) / BSIZE;
                          MappedFrom(old(v), v, i, bn, 1) &&
                            Room(v, w) == Room(old(v), old(w)) - FreshBlocks(old(v), i, bn)
      ensures r.Addr? <==> Room(old(v), old(w)) >= FreshBlocks(old(v), i, (off + tot) / BSIZE)
      ensures r.Stop? ==> AllMarked(v)
      ensures r.Addr? && copied == m ==> Logs(old(v), old(logged), v, logged)
    {
      hide Owns, Wrote, Extends, BlockOf, SlotAddr, MappedFrom, FreshBlocks, AllMarked, OnlySlot, IndirectKept,
           IndirectOf, Room, Logs;
      copied := 0;
      WroteFits(v0, v, i, off, src.bytes, tot);
      BelowMax(off, tot, |src.bytes|);
      ghost var u, uw, log0 := v, w, logged;
      r, bits := Bmap(i, (off + tot) / BSIZE);
      if r.Stop? { return; }
      ghost var x, log1 := v, logged;
      OwnsShape(v, w);
      ExtendsShape(u, v, i);
      WroteExtends(v0, w0, u, uw, v, i, off, src.bytes, tot);
      if tot + m > src.reach {
        copied := src.reach - tot;
      } else {
        copied := m;
        logged := logged + {r.a};
      }
      CopyIn(i, r.a, off, src.bytes, tot, copied, v0, w0);
      SlotsSame(u, x, v, i, (off + tot) / BSIZE);
      RoomSame(x, v, w);
      if copied == m {
        LogsMore(u, log0, x, log1, {r.a});
        LogsOn(u, log0, x, logged, v, logged);
      }
    }

    /** either_copyin into the buffer of block a: k bytes of src from tot on. */
    method CopyIn(i: nat, a: nat, off: nat, src: seq<Byte>, tot: nat, k: nat,
                  ghost v0: Vol, ghost w0: map<nat, (nat, nat)>)
      requires Owns(v0, w0) && Owns(v, w) && i < |v0.inodes|
      requires Wrote(v0, v, i, off, src, tot)
      requires tot + k <= |src| && (off + tot) % BSIZE + k <= BSIZE && (off + tot) / BSIZE < MAXFILE
      requires a == BlockOf(v, i, (off + tot) / BSIZE) != 0
      modifies this`v
      ensures Owns(v, w) && Wrote(v0, v, i, off, src, tot + k)
      ensures v.sb == old(v).sb && OnlySlot(old(v), v, i, NSLOTS) && |v.inodes| == |old(v).inodes|
      ensures a in logged ==> Logs(old(v), logged, v, logged)
    {
      OwnsShape(v, w);
      OnlyNothing(v, i, NSLOTS);
      if k > 0 {
        WrotePatch(v0, w0, v, w, i, off, src, tot, k);
        v := WithBlock(v, a, Patched(v.blocks[a], (off + tot) % BSIZE, src, tot, k));
      }
    }

    /** One pass of writei's loop with its account. */
    method WritePass(i: nat, off: nat, src: Source, tot: nat, m: nat, ghost v0: Vol, ghost w0: map<nat, (nat, nat)>,
                     ghost log0: set<nat>, ghost its: nat)
      returns (r: Found, copied: nat)
      requires Consistent(v0, w0) && i < |v0.inodes| && off <= v0.inodes[i].size
      requires tot < |src.bytes| && tot <= src.reach && off + |src.bytes| <= MAXBYTES
      requires m == Chunk(|src.bytes| - tot, off + tot) && (tot == 0 || (off + tot) % BSIZE == 0)
      requires InLoop(v0, w0, log0, v, w, logged, i, off, src, tot, its) && its == Span(off, tot)
      modifies this`v, this`w, this`logged
      ensures r.Addr? ==> copied == Min(m, src.reach - tot)
      ensures r.Addr? ==> InLoop(v0, w0, log0, v, w, logged, i, off, src, tot + copied, its + 1)
      ensures its + 1 <= Span(off, |src.bytes|) && Span(off, tot + m) == its + 1
      ensures r.Addr? && copied < m ==> its + 1 == Visited(off, src)
      ensures r.Stop? ==> AllMarked(v) && Room(v0, w0) < BlocksFor(v0, i, off / BSIZE, Visited(off, src))
      ensures r.Addr? && copied == m ==> Logs(old(v), old(logged), v, logged)
    {
      hide Owns, Wrote, Spent, Span, NoHoles, IndirectKept, FreshBlocks, IndirectOf, SlotAddr, BlockOf, MappedFrom,
           Room, AllMarked, Visited, Charged, BlocksFor, Logs;
      ghost var u, uw, log1, bn := v, w, logged, (off + tot) / BSIZE;
      ghost var D, B, added :| Spent(v0, v, i, off, log0, logged, D, B, its, added);
      ghost var bits := {};
      VisitNext(off, src, tot, its, m);
      OwnsShape(v, w);
      OwnsShape(v0, w0);
      FirstIsMapped(v0, u, i, off, src.bytes, tot);
      r, copied, bits := WriteChunk(i, off, src, tot, m, v0, w0);
      if r.Stop? {
        ChargeStop(v0, w0, u, uw, i, off / BSIZE, its, Visited(off, src));
      } else {
        ChargeOne(v0, w0, u, uw, v, w, i, off / BSIZE, its);
        SpentStep(v0, u, v, i, off, log0, log1, logged, D, B, its, added, bn, r.a, bits);
      }
    }

    /** The loop of writei: all n bytes, or those before the first chunk that cannot be
        copied; c counts every byte that reached a buffer. */
    method WriteLoop(i: nat, off: nat, src: Source) returns (r: Found, tot: nat, ghost c: nat)
      requires Shape(v) && Consistent(v, w) && i < |v.inodes| && off <= v.inodes[i].size
      requires off + |src.bytes| <= MAXBYTES
      modifies this`v, this`w, this`logged
      ensures r.Addr? ==> && tot <= c == Min(|src.bytes|, src.reach)
                          && Owns(v, w) && Wrote(old(v), v, i, off, src.bytes, c)
                          && StopsAtBlock(off, tot, c, |src.bytes|)
      ensures r.Addr? ==> |logged| <= |old(logged)| + WriteCost(off, |src.bytes|)
      ensures r.Stop? ==> AllMarked(v) && Room(old(v), old(w)) < BlocksFor(old(v), i, off / BSIZE, Visited(off, src))
      ensures r.Addr? ==> Charged(old(v), old(w), v, w, i, off / BSIZE, Visited(off, src))
      ensures r.Addr? && src.reach >= |src.bytes| ==> Logs(old(v), old(logged), v, logged)
      ensures src.bytes == [] ==> r.Addr? && v == old(v)
    {
      hide Owns, Wrote, Spent, Span, NoHoles, Room, AllMarked, Visited, Charged, BlocksFor, StopsAtBlock, WriteCost,
           InLoop, Logs;
      ghost var v0, w0, log0 := v, w, logged;
      var n := |src.bytes|;
      tot, c, r := 0, 0, Addr(0);
      ghost var its := 0;
      LoopStarts(v, w, logged, i, off, src);
      LogsNothing(v, logged);
      while tot < n
        invariant Logs(v0, log0, v, logged) && (n == 0 ==> v == v0)
        invariant tot == c <= n && tot <= src.reach && r.Addr?
        invariant tot == 0 || tot == n || (off + tot) % BSIZE == 0
        invariant its == Span(off, tot) <= Span(off, n) && InLoop(v0, w0, log0, v, w, logged, i, off, src, tot, its)
      {
        var m := Chunk(n - tot, off + tot);
        var copied;
        ghost var u, log1 := v, logged;
        r, copied := WritePass(i, off, src, tot, m, v0, w0, log0, its);
        if r.Stop? { return; }
        if copied == m { LogsOn(v0, log0, u, log1, v, logged); }
        its, c := its + 1, tot + copied;
        if copied < m {
          StopsShort(off, tot, c, n);
          break;
        }
        tot := tot + m;
      }
      StopsWhole(off, n);
      LoopEnds(v0, w0, log0, v, w, logged, i, off, src, c, its);
    }

    /** The end of writei, after t of n bytes from off on (kernel/fs.c:508-515). */
    method EndWrite(i: nat, off: nat, t: nat, n: nat)
      requires Shape(v) && i < |v.inodes| == |dinodes| && off + t <= MAXBYTES &&
               (n == 0 ==> off + t <= v.inodes[i].size)
      modifies this`v, this`dinodes, this`logged
      ensures v == WithSize(old(v), i, Max(old(v).inodes[i].size, off + t))
      ensures n == 0 ==> v == old(v) && dinodes == old(dinodes) && logged == old(logged)
      ensures n > 0 ==> dinodes == old(dinodes)[i := v.inodes[i]] && logged == old(logged) + {v.sb.InodeBlock(i)}
    {
      WithSameSize(v, i);
      if n > 0 {
        if off + t > v.inodes[i].size {
          v := WithSize(v, i, off + t);
        }
        Iupdate(i);
      }
    }

    /** writei: a splice into the flat file when every byte can be copied. When a copy
        fails, the bytes before that chunk count towards the size, yet n is returned. */
    method Writei(i: nat, off: nat, src: Source) returns (ret: Ret, ghost tot: nat)
      requires Valid() && i < |v.inodes| && off < UINT_LIMIT && |src.bytes| < UINT_LIMIT
      modifies this
      ensures ret == Val(-1) <==> off > old(v).inodes[i].size || off + |src.bytes| > MAXBYTES
      ensures ret == Val(-1) ==> v == old(v) && w == old(w) && dinodes == old(dinodes) && logged == old(logged)
      ensures ret.Val? && ret != Val(-1) ==> ret == Val(|src.bytes|) && Valid()
      ensures ret.Val? && ret != Val(-1) ==>
                var c := Min(|src.bytes|, src.reach);
                && tot <= c && StopsAtBlock(off, tot, c, |src.bytes|)
                && SameShape(old(v), v)
                && Contents(v, i) == Splice(old(Contents(v, i)), off,
                                            src.bytes[..c])[..Max(old(v).inodes[i].size, off + tot)]
                && (forall i' :: 0 <= i' < |v.inodes| && i' != i ==> Contents(v, i') == old(Contents(v, i')))
      ensures ret.Val? && ret != Val(-1) && |src.bytes| > 0 ==> dinodes == old(dinodes)[i := v.inodes[i]]
      ensures ret.Val? && ret != Val(-1) ==> |logged| <= |old(logged)| + WriteCost(off, |src.bytes|) + 1
      ensures ret.Panic? ==> AllMarked(v) && |Unmarked(old(v))| < BlocksFor(old(v), i, off / BSIZE, Visited(off, src))
      ensures ret.Val? && ret != Val(-1) ==> Charged(old(v), old(w), v, w, i, off / BSIZE, Visited(off, src))
      ensures ret.Val? && ret != Val(-1) ==> |Unmarked(old(v))| >= BlocksFor(old(v), i, off / BSIZE, Visited(off, src))
      ensures ret.Val? && src.reach >= |src.bytes| ==>
                && Through(old(v), old(logged), v, logged, i)
                && (old(dinodes) == old(v).inodes ==> dinodes == v.inodes)
    {
      hide Owns, BytesKept, BytesPut, SlotsKept, NoHoles, StopsAtBlock, Charged, AllMarked, Unmarked, BlocksFor,
           Visited, Through, Logs, OnlyInode, WriteCost;
      ThroughNothing(v, logged, i);
      tot := 0;
      var n := |src.bytes|;
      WrapCheck(off, n);
      if off > v.inodes[i].size || (off + n) % UINT_LIMIT < off {
        return Val(-1), 0;
      }
      if off + n > MAXBYTES {
        return Val(-1), 0;
      }
      ghost var v0, w0, log0 := v, w, logged;
      var r, t;
      ghost var c;
      r, t, c := WriteLoop(i, off, src);
      RoomIs(v0, w0);
      if r.Stop? {
        return Panic(r.message), 0;
      }
      tot := t;
      ChargedBlocks(v0, w0, v, w, i, off / BSIZE, Visited(off, src));
      ChargedSize(v0, w0, v, w, i, off / BSIZE, Visited(off, src), Max(v.inodes[i].size, off + t));
      WroteContents(v0, w0, v, w, i, off, src.bytes, c, t);
      WroteInode(v0, v, i, off, src.bytes, c);
      ghost var x, log1, d0 := v, logged, dinodes;
      EndWrite(i, off, t, n);
      WriteEnded(v0, log0, x, log1, v, logged, i, d0, dinodes, n, src.reach >= n);
      return Val(n), t;
    }

    /** One turn of itrunc's loop over the direct blocks. */
    method FreeSlot(i: nat, k: nat, ghost v0: Vol)
      requires Shape(v0) && Owns(v0, w) && Shape(v) && v.sb == v0.sb && i < |v0.inodes| == |v.inodes| && k < NDIRECT
      requires Freeing(v0, w, v, i, Progress(k, 0, false)) && v.inodes == v0.inodes[i := Cut(v0.inodes[i], k)]
      modifies this`v, this`logged
      ensures Shape(v) && v.sb == v0.sb && |v.inodes| == |v0.inodes|
      ensures Freeing(v0, w, v, i, Progress(k + 1, 0, false)) && v.inodes == v0.inodes[i := Cut(v0.inodes[i], k + 1)]
      ensures LogsBits(old(v), old(logged), v, logged)
    {
      hide Freeing, Owns, Cut, Marked, LogsBits;
      LogsBitsNone(v, logged);
      ghost var p, q := Progress(k, 0, false), Progress(k + 1, 0, false);
      CutOneMore(v0.inodes[i], k);
      if v.inodes[i].addrs[k] != 0 {
        FreeStep(v0, w, v, i, p, q, k);
        var ok := Bfree(v.inodes[i].addrs[k]);
        ghost var u := v;
        v := WithAddr(v, i, k, 0);
        LogsBitsInodes(old(v), old(logged), u, v, logged);
        FreeingSameBlocks(v0, w, u, v, i, q);
      } else {
        SkipStep(v0, w, v, i, p, q);
      }
    }

    /** The loop of itrunc over the direct blocks. */
    method FreeDirect(i: nat) returns (ok: bool)
      requires Shape(v) && Owns(v, w) && i < |v.inodes|
      modifies this`v, this`logged
      ensures ok && Freeing(old(v), w, v, i, Progress(NDIRECT, 0, false))
      ensures v.inodes == old(v).inodes[i := Cut(old(v).inodes[i], NDIRECT)]
      ensures LogsBits(old(v), old(logged), v, logged)
    {
      hide Freeing, Owns, Cut, Marked, SlotAddr, LogsBits;
      LogsBitsNone(v, logged);
      FreeNothing(v, w, i);
      ghost var v0 := v;
      var k := 0;
      CutNothing(v0.inodes[i]);
      while k < NDIRECT
        invariant Shape(v) && v.sb == v0.sb && |v.inodes| == |v0.inodes| && k <= NDIRECT &&
                  Freeing(v0, w, v, i, Progress(k, 0, false))
        invariant v.inodes == v0.inodes[i := Cut(v0.inodes[i], k)]
        invariant LogsBits(v0, old(logged), v, logged)
      {
        ghost var u, log1 := v, logged;
        FreeSlot(i, k, v0);
        LogsBitsOn(v0, old(logged), u, log1, v, logged);
        k := k + 1;
      }
      ok := true;
    }

    /** The rest of itrunc's work on the block list: the entries of the indirect block,
        read from its buffer, and then the indirect block. */
    method FreeIndirect(i: nat, ghost v0: Vol) returns (ok: bool)
      requires Shape(v0) && Shape(v) && v.sb == v0.sb
      requires Owns(v0, w) && i < |v0.inodes| && Freeing(v0, w, v, i, Progress(NDIRECT, 0, false))
      requires v.inodes == v0.inodes[i := Cut(v0.inodes[i], NDIRECT)]
      modifies this`v, this`logged
      ensures ok && Freeing(v0, w, v, i, EVERYTHING)
      ensures v.inodes == v0.inodes[i := v.inodes[i]]
      ensures Empty(v.inodes[i]) == Empty(v0.inodes[i]) && v.inodes[i].addrs == Empty(v0.inodes[i]).addrs
      ensures LogsBits(old(v), old(logged), v, logged)
    {
      hide LogsBits;
      LogsBitsNone(v, logged);
      var a := v.inodes[i].addrs[NDIRECT];
      assert a == SlotAddr(v0, i, NDIRECT);
      if a == 0 {
        SkipStep(v0, w, v, i, Progress(NDIRECT, 0, false), EVERYTHING);
        return true;
      }
      SlotIsData(v0, w, i, NDIRECT);
      assert v.blocks[a] == v0.blocks[a];
      ok := FreeEntries(i, a, v0);
      FreeStep(v0, w, v, i, Progress(NDIRECT, NINDIRECT, false), EVERYTHING, NDIRECT);
      ghost var u, log1 := v, logged;
      ok := Bfree(a);
      LogsBitsOn(old(v), old(logged), u, log1, v, logged);
      ghost var x := v;
      v := WithAddr(v, i, NDIRECT, 0);
      LogsBitsInodes(old(v), old(logged), x, v, logged);
      FreeingSameBlocks(v0, w, x, v, i, EVERYTHING);
    }

    /** The loop of itrunc over the entries of indirect block a. */
    method FreeEntries(i: nat, a: nat, ghost v0: Vol) returns (ok: bool)
      requires Shape(v0) && Shape(v) && v.sb == v0.sb && i < |v0.inodes| == |v.inodes|
      requires Owns(v0, w) && Freeing(v0, w, v, i, Progress(NDIRECT, 0, false))
      requires a == SlotAddr(v0, i, NDIRECT) != 0 && a < |v.blocks| && v.blocks[a] == v0.blocks[a]
      modifies this`v, this`logged
      ensures ok && Shape(v) && v.sb == v0.sb && v.inodes == old(v).inodes
      ensures Freeing(v0, w, v, i, Progress(NDIRECT, NINDIRECT, false))
      ensures LogsBits(old(v), old(logged), v, logged)
    {
      hide Freeing, Owns, LogsBits;
      LogsBitsNone(v, logged);
      var bp := v.blocks[a];
      var j := 0;
      while j < NINDIRECT
        invariant Shape(v) && v.sb == v0.sb && v.inodes == old(v).inodes
        invariant j <= NINDIRECT && Freeing(v0, w, v, i, Progress(NDIRECT, j, false))
        invariant LogsBits(old(v), old(logged), v, logged)
      {
        ghost var u, log1 := v, logged;
        ghost var p, q := Progress(NDIRECT, j, false), Progress(NDIRECT, j + 1, false);
        var x := Word(bp, j);
        assert x == SlotAddr(v0, i, NDIRECT + 1 + j);
        if x != 0 {
          FreeStep(v0, w, v, i, p, q, NDIRECT + 1 + j);
          ok := Bfree(x);
          LogsBitsOn(old(v), old(logged), u, log1, v, logged);
        } else {
          SkipStep(v0, w, v, i, p, q);
        }
        j := j + 1;
      }
      ok := true;
    }

    /** itrunc: every block of the inode goes back to the bitmap exactly once (no bfree
        takes its panic), the file is empty, and no other file changes. Everything that
        changes goes through the log, and nothing is logged but bitmap blocks and the block
        of the inode. */
    method Itrunc(i: nat) returns (ok: bool)
      requires Valid() && i < |v.inodes|
      modifies this
      ensures ok && Valid() && SameShape(old(v), v)
      ensures v.inodes == old(v).inodes[i := Empty(old(v).inodes[i])] && dinodes == old(dinodes)[i := v.inodes[i]]
      ensures forall c: nat :: c < v.sb.size ==>
                (Marked(v, c) <==> Marked(old(v), c) && !(c in old(w) && old(w)[c].0 == i))
      ensures forall i' :: 0 <= i' < |v.inodes| && i' != i ==> Contents(v, i') == old(Contents(v, i'))
      ensures Through(old(v), old(logged), v, logged, i)
      ensures old(dinodes) == old(v).inodes ==> dinodes == v.inodes
      ensures logged <= old(logged) + v.sb.BitmapBlocks() + {v.sb.InodeBlock(i)}
      ensures old(logged) == {} ==> |logged| <= v.sb.size / BPB + 2
    {
      hide LogsBits;
      ghost var v0, w0, log0 := v, w, logged;
      ok := FreeDirect(i);
      ghost var u, log1 := v, logged;
      ok := FreeIndirect(i, v0);
      LogsBitsOn(v0, log0, u, log1, v, logged);
      ghost var x := v;
      var ip := v.inodes[i];
      v := WithSize(v, i, 0);
      FreeingSameBlocks(v0, w0, x, v, i, EVERYTHING);
      w := OwnedByOthers(w, i);
      assert v.inodes == v0.inodes[i := Empty(v0.inodes[i])];
      AllFreed(v0, w0, v, i);
      TruncatedThrough(v0, log0, x, logged, v, i);
      Iupdate(i);
      EverySlotCovered(v0, w0, i);
      if log0 == {} { TruncationCost(v.sb, logged, v.sb.InodeBlock(i)); }
    }

    /** One turn of filewrite's loop, from begin_op to end_op: bytes j .. j+n1 of src. */
    method FileChunk(i: nat, off: nat, src: Source, j: nat, n1: nat, ghost v0: Vol, ghost w0: map<nat, (nat, nat)>)
      returns (r: Ret)
      requires Valid() && SameShape(v0, v) && Owns(v0, w0) && i < |v.inodes| && logged == {}
      requires 0 < n1 <= 3 * BSIZE && j + n1 <= |src.bytes| < UINT_LIMIT && off + j < UINT_LIMIT
      requires src.reach >= |src.bytes| ==> WriteAt(v0, w0, v, w, i, off, src.bytes, j)
      requires Balanced(v0, w0, v, w, i, off / BSIZE, Span(off, |src.bytes|))
      modifies this
      ensures r.Val? ==>
                Valid() && SameShape(v0, v) && |logged| <= RedoLog.MAXOPBLOCKS && (r == Val(n1) || r == Val(-1))
      ensures r == Val(n1) ==> off + j + n1 <= MAXBYTES
      ensures r.Val? ==> KeepsBelow(old(v), v, i, off) && Balanced(v0, w0, v, w, i, off / BSIZE, Span(off, |src.bytes|))
      ensures r.Panic? ==> AllMarked(v) && Room(v0, w0) < BlocksFor(v0, i, off / BSIZE, Span(off, |src.bytes|))
      ensures src.reach >= |src.bytes| ==>
                && (r == Val(n1) ==> WriteAt(v0, w0, v, w, i, off, src.bytes, j + n1))
                && (r == Val(-1) ==> WriteAt(v0, w0, v, w, i, off, src.bytes, j) && !WriteFits(v0, i, off, |src.bytes|))
                && (r == Val(-1) && off <= v0.inodes[i].size ==> off + j + n1 > MAXBYTES)
      ensures r.Val? && src.reach >= |src.bytes| ==>
                Through(old(v), {}, v, logged, i) && (old(dinodes) == old(v).inodes ==> dinodes == v.inodes)
    {
      hide Owns, NoHoles, Contents, WriteCost, StopsAtBlock, WriteAt, Charged, AllMarked, Unmarked, BlocksFor, Visited,
           Span, Room, Splice, Balanced, KeepsBelow, Through;
      OwnsShape(v0, w0);
      ghost var u, uw, n := v, w, |src.bytes|;
      var piece := Source(src.bytes[j..j + n1], if src.reach > j then src.reach - j else 0);
      ghost var tot;
      r, tot := Writei(i, off + j, piece);
      ChunkFits(off + j, n1);
      KeepsAll(u, i, off);
      if r.Panic? {
        ChunkShort(v0, w0, u, uw, i, off, j, n1, n, piece);
      } else if r.n < 0 {
        if src.reach >= n { ChunkRefused(v0, w0, u, uw, i, off, src.bytes, j, n1); }
      } else {
        ChunkKeeps(u, v, i, off, j, piece.bytes[..Min(n1, piece.reach)], tot);
        ChunkBalance(v0, w0, u, uw, v, w, i, off, j, n1, n, piece);
        if src.reach >= n { ChunkWritten(v0, w0, u, uw, v, w, i, off, src.bytes, j, n1, piece, tot); }
      }
    }

    /** The inode branch of filewrite: the data goes out in chunks of at most three blocks,
        each a transaction of its own. `ops` lists the transactions that have ended, and done
        says how many bytes were handed to writei calls that succeeded. At the end of each
        transaction the file is spliced with whole chunks. */
    method Filewrite(i: nat, off: nat, src: Source)
      returns (ret: Ret, end: nat, ghost done: nat, ghost ops: seq<Txn>)
      requires Valid() && i < |v.inodes| && off < UINT_LIMIT && |src.bytes| < UINT_LIMIT
      modifies this
      ensures Transactions(old(v), old(w), i, off, src, ops)
      ensures ret.Val? ==> Valid() && SameShape(old(v), v) && end == off + done < UINT_LIMIT && done <= |src.bytes|
      ensures ret.Val? ==> KeepsBelow(old(v), v, i, off) && (done == 0 || done >= Min(|src.bytes|, 3 * BSIZE))
      ensures ret.Val? ==> ret == if done == |src.bytes| then Val(|src.bytes|) else Val(-1)
      ensures ret.Val? && src.reach >= |src.bytes| ==>
                && (done == |src.bytes| <==> src.bytes == [] || WriteFits(old(v), i, off, |src.bytes|))
                && (forall i' :: 0 <= i' < |v.inodes| && i' != i ==> Contents(v, i') == old(Contents(v, i')))
                && (if off <= old(v).inodes[i].size
                    then Contents(v, i) == Splice(old(Contents(v, i)), off, src.bytes[..done])
                    else Contents(v, i) == old(Contents(v, i)))
      ensures ret.Val? && src.reach >= |src.bytes| && off <= old(v).inodes[i].size && done < |src.bytes| ==>
                off + done + Min(|src.bytes| - done, 3 * BSIZE) > MAXBYTES
      ensures ret.Panic? ==>
                AllMarked(v) && |Unmarked(old(v))| < BlocksFor(old(v), i, off / BSIZE, Span(off, |src.bytes|))
      ensures ret.Val? && src.reach >= |src.bytes| == done ==>
                |Unmarked(old(v))| >= BlocksFor(old(v), i, off / BSIZE, Span(off, |src.bytes|))
      ensures ret.Val? && src.reach >= |src.bytes| && old(dinodes) == old(v).inodes ==> dinodes == v.inodes
      ensures ret.Val? && src.reach >= |src.bytes| ==> WriteAt(old(v), old(w), v, w, i, off, src.bytes, done)
    {
      hide Owns, NoHoles, Contents, Progressed, Charged, AllMarked, Unmarked, BlocksFor, Span, Room, WriteAt,
           WriteFits, Splice, KeepsBelow, Transactions, Balanced, Through;
      var n, max := |src.bytes|, (RedoLog.MAXOPBLOCKS - 1 - 1 - 2) / 2 * BSIZE;
      ghost var v0, w0 := v, w;
      var j := 0;
      end, ops, done := off, [], 0;
      WriteStarts(v, w, i, off, src.bytes);
      NoneYet(v, w, i, off, src);
      BalancedStart(v, w, i, off / BSIZE, Span(off, n));
      KeepsAll(v, i, off);
      RoomIs(v, w);
      while j < n
        invariant j <= n && end == off + j < UINT_LIMIT && done == j && Valid() && SameShape(v0, v)
        invariant Transactions(v0, w0, i, off, src, ops) && (j == n || j % (3 * BSIZE) == 0)
        invariant src.reach >= n ==> WriteAt(v0, w0, v, w, i, off, src.bytes, j)
        invariant KeepsBelow(v0, v, i, off) && (j == 0 || j >= Min(n, 3 * BSIZE))
        invariant Balanced(v0, w0, v, w, i, off / BSIZE, Span(off, n)) && v == Before(v0, ops, |ops|)
        invariant src.reach >= n && old(dinodes) == old(v).inodes ==> dinodes == v.inodes
      {
        var n1 := n - j;
        if n1 > max {
          n1 := max;
        }
        logged := {};   // begin_op
        ghost var u := v;
        var r := FileChunk(i, off, src, j, n1, v0, w0);
        if r.Panic? {
          return r, end, j, ops;
        }
        KeepsMore(v0, u, v, i, off);
        NextChunk(j, n1, n);
        ghost var t := Txn(logged, v, w, if r.n < 0 then j else j + n1);
        OneMore(v0, w0, i, off, src, ops, t);
        ops := ops + [t];
        if r.n < 0 {
          break;
        }
        end := end + r.n;   // r.n == n1, so no "short filewrite"
        j := j + n1;
        done := j;
      }
      if src.reach >= n {
        WriteDone(v0, w0, v, w, i, off, src.bytes, j);
      }
      ret := if j == n then Val(n) else Val(-1);
    }
  }

  lemma WriteEnded(v0: Vol, log0: set<nat>, x: Vol, log1: set<nat>, v: Vol, log: set<nat>, i: nat, d: seq<Inode>,
                   d': seq<Inode>, n: nat, whole: bool)
    requires Shape(x) && i < |x.inodes| == |d| && OnlyInode(v0, x, i) && x.sb == v0.sb &&
             (whole ==> Logs(v0, log0, x, log1))
    requires exists size: nat :: size <= MAXBYTES && v == WithSize(x, i, size)
    requires n == 0 ==> v == x == v0 && d' == d && log == log1
    requires n > 0 ==> d' == d[i := v.inodes[i]] && log == log1 + {v.sb.InodeBlock(i)}
    ensures d == v0.inodes ==> d' == v.inodes
    ensures whole ==> Through(v0, log0, v, log, i)
  {
    hide Logs;
    assert OnlyInode(x, v, i) && v.sb == x.sb && v.blocks == x.blocks;
    if whole && n > 0 { ThroughWrite(v0, log0, x, log1, v, i); }
  }

  /** A transaction of filewrite: what it logged, the volume when it ended, and how many bytes
      had been handed over by then. */
  datatype Txn = Txn(logged: set<nat>, v: Vol, w: map<nat, (nat, nat)>, upto: nat)

  /** At the end of each transaction its blocks were within its share of the log, and the file
      was spliced with whole chunks and nothing else had changed. */
  ghost predicate Transactions(v0: Vol, w0: map<nat, (nat, nat)>, i: nat, off: nat, src: Source, ops: seq<Txn>) {
    forall k: nat :: k < |ops| ==> Transaction(v0, w0, i, off, src, Before(v0, ops, k), ops[k])
  }

  /** The volume when transaction k begins. */
  ghost function Before(v0: Vol, ops: seq<Txn>, k: nat): Vol
    requires k <= |ops|
  {
    if k == 0 then v0 else ops[k - 1].v
  }

  ghost predicate Transaction(v0: Vol, w0: map<nat, (nat, nat)>, i: nat, off: nat, src: Source, u: Vol, t: Txn) {
    && |t.logged| <= RedoLog.MAXOPBLOCKS && Consistent(t.v, t.w)
    && (src.reach >= |src.bytes| ==>
          && WriteAt(v0, w0, t.v, t.w, i, off, src.bytes, t.upto)
          && (t.upto == |src.bytes| || t.upto % (3 * BSIZE) == 0)
          && Through(u, {}, t.v, t.logged, i))
  }

  lemma OneMore(v0: Vol, w0: map<nat, (nat, nat)>, i: nat, off: nat, src: Source, ops: seq<Txn>, t: Txn)
    requires Transactions(v0, w0, i, off, src, ops) && Transaction(v0, w0, i, off, src, Before(v0, ops, |ops|), t)
    ensures Transactions(v0, w0, i, off, src, ops + [t])
  {
    hide Transaction;
    forall k: nat | k < |ops + [t]| ensures Transaction(v0, w0, i, off, src, Before(v0, ops + [t], k), (ops + [t])[k]) {
      if k < |ops| { assert Transaction(v0, w0, i, off, src, Before(v0, ops, k), ops[k]); }
    }
  }

  lemma NoneYet(v0: Vol, w0: map<nat, (nat, nat)>, i: nat, off: nat, src: Source)
    ensures Transactions(v0, w0, i, off, src, [])
  {
  }

  lemma NextChunk(j: nat, n1: nat, n: nat)
    requires j % (3 * BSIZE) == 0 && j + n1 <= n && (j + n1 == n || n1 == 3 * BSIZE)
    ensures j + n1 == n || (j + n1) % (3 * BSIZE) == 0
  {
  }

  /** The file size plays no part in the account. */
  lemma ChargedSize(v0: Vol, w0: map<nat, (nat, nat)>, v: Vol, w: map<nat, (nat, nat)>, i: nat, b0: nat, k: nat,
                    size: nat)
    requires Charged(v0, w0, v, w, i, b0, k) && size <= MAXBYTES
    ensures Charged(v0, w0, WithSize(v, i, size), w, i, b0, k)
  {
    var v' := WithSize(v, i, size);
    forall b: nat | b < MAXFILE ensures BlockOf(v', i, b) == BlockOf(v, i, b) {
    }
    assert SlotAddr(v', i, NDIRECT) == SlotAddr(v, i, NDIRECT);
    hide BlockOf, SlotAddr;
  }

  /** The blocks that writei maps for src: those of the bytes it can copy, and that of the
      first byte it cannot. */
  ghost function Visited(off: nat, src: Source): nat {
    Span(off, Min(|src.bytes|, src.reach + 1))
  }

  /** The next pass is on the next block. */
  lemma VisitNext(off: nat, src: Source, tot: nat, its: nat, m: nat)
    requires tot < |src.bytes| && tot <= src.reach && its == Span(off, tot) && off + |src.bytes| <= MAXBYTES
    requires tot == 0 || (off + tot) % BSIZE == 0
    requires m == Chunk(|src.bytes| - tot, off + tot)
    ensures (off + tot) / BSIZE == off / BSIZE + its < MAXFILE && its + 1 <= Visited(off, src)
    ensures Span(off, tot + m) == its + 1 <= Span(off, |src.bytes|) && (its == 0 <==> tot == 0)
    ensures src.reach < tot + m ==> Visited(off, src) == its + 1
  {
    var q := off % BSIZE;
    assert off == off / BSIZE * BSIZE + q;
    if tot > 0 {
      assert (q + tot) % BSIZE == 0;
      assert its * BSIZE == q + tot;
    }
    SpanStep(off, tot, its, m);
    SpanGrows(off, tot + m, |src.bytes|);
    var t := Min(|src.bytes|, src.reach + 1);
    if src.reach < tot + m {
      SpanStep(off, tot, its, t - tot);
    } else {
      SpanGrows(off, tot + m, t);
    }
  }

  lemma SpanNone(off: nat, src: Source)
    ensures Span(off, 0) == 0 <= Span(off, |src.bytes|)
    ensures |src.bytes| <= src.reach ==> Visited(off, src) == Span(off, |src.bytes|)
  {
  }

  lemma BelowMax(off: nat, tot: nat, n: nat)
    requires tot < n && off + n <= MAXBYTES
    ensures (off + tot) / BSIZE < MAXFILE
  {
  }

  lemma SpanGrows(off: nat, a: nat, b: nat)
    requires a <= b
    ensures Span(off, a) <= Span(off, b)
  {
  }

  lemma SpanStep(off: nat, tot: nat, its: nat, x: nat)
    requires 0 < x && (off + tot) % BSIZE + x <= BSIZE
    requires (if tot == 0 then its == 0 else its * BSIZE == off % BSIZE + tot)
    ensures Span(off, tot + x) == its + 1
  {
    if tot > 0 {
      assert off + tot == (off / BSIZE + its) * BSIZE;
      assert x <= BSIZE;
      assert off % BSIZE + tot + x + BSIZE - 1 == (its + 1) * BSIZE + (x - 1);
    }
  }

  /** The entry that bmap reads from the indirect block. */
  lemma EntryIs(v: Vol, w: map<nat, (nat, nat)>, i: nat, bn: nat)
    requires Owns(v, w) && i < |v.inodes| && NDIRECT <= bn < MAXFILE && SlotAddr(v, i, NDIRECT) != 0
    ensures v.inodes[i].addrs[NDIRECT] == SlotAddr(v, i, NDIRECT) < |v.blocks|
    ensures Word(v.blocks[SlotAddr(v, i, NDIRECT)], bn - NDIRECT) == BlockOf(v, i, bn)
  {
    SlotIsData(v, w, i, NDIRECT);
  }

  /** writei accepts n bytes at off. */
  predicate WriteFits(v: Vol, i: nat, off: nat, n: nat)
    requires i < |v.inodes|
  {
    off <= v.inodes[i].size && off + n <= MAXBYTES
  }

  /** The log budget: one chunk, wherever it starts, logs at most MAXOPBLOCKS blocks. */
  lemma ChunkFits(off: nat, n: nat)
    requires n <= 3 * BSIZE
    ensures WriteCost(off, n) + 1 <= RedoLog.MAXOPBLOCKS
  {
    if off % BSIZE == 0 {
      assert Span(off, n) <= 3;
    } else {
      assert Span(off, n) <= 4;
    }
  }

  /** j bytes have been spliced in; every other file is as it was. */
  ghost predicate Progressed(v0: Vol, v: Vol, i: nat, off: nat, src: seq<Byte>, j: nat)
    requires Shape(v0) && Shape(v) && i < |v0.inodes| == |v.inodes| && j <= |src|
  {
    && (forall i' :: 0 <= i' < |v.inodes| && i' != i ==> Contents(v, i') == Contents(v0, i'))
    && (j == 0 ==> Contents(v, i) == Contents(v0, i))
    && (j > 0 ==> WriteFits(v0, i, off, j) && Contents(v, i) == Splice(Contents(v0, i), off, src[..j]))
  }

  /** j bytes of src have been written, and the blocks for them paid for. */
  ghost predicate WriteAt(v0: Vol, w0: map<nat, (nat, nat)>, v: Vol, w: map<nat, (nat, nat)>, i: nat, off: nat,
                          src: seq<Byte>, j: nat) {
    && Shape(v0) && Shape(v) && i < |v0.inodes| == |v.inodes| && j <= |src|
    && Progressed(v0, v, i, off, src, j) && Charged(v0, w0, v, w, i, off / BSIZE, Span(off, j))
  }

  lemma WriteStarts(v: Vol, w: map<nat, (nat, nat)>, i: nat, off: nat, src: seq<Byte>)
    requires Owns(v, w) && i < |v.inodes|
    ensures WriteAt(v, w, v, w, i, off, src, 0)
  {
    ProgressNothing(v, i, off, src);
    ChargeNone(v, w, i, off / BSIZE);
    hide Progressed, Charged, Owns;
  }

  lemma WriteDone(v0: Vol, w0: map<nat, (nat, nat)>, v: Vol, w: map<nat, (nat, nat)>, i: nat, off: nat, src: seq<Byte>,
                  j: nat)
    requires WriteAt(v0, w0, v, w, i, off, src, j) && Owns(v0, w0) && Owns(v, w)
    requires j < |src| ==> !WriteFits(v0, i, off, |src|)
    ensures j == |src| <==> src == [] || WriteFits(v0, i, off, |src|)
    ensures forall i' :: 0 <= i' < |v.inodes| && i' != i ==> Contents(v, i') == Contents(v0, i')
    ensures if off <= v0.inodes[i].size
            then Contents(v, i) == Splice(Contents(v0, i), off, src[..j])
            else Contents(v, i) == Contents(v0, i)
    ensures |Unmarked(v0)| >= BlocksFor(v0, i, off / BSIZE, Span(off, j))
  {
    ProgressEnd(v0, v, i, off, src, j);
    ChargedBlocks(v0, w0, v, w, i, off / BSIZE, Span(off, j));
    hide Progressed, Charged, Owns, Contents, Unmarked;
  }

  /** Other files, and the bytes of this one before off, are as they were. */
  ghost predicate KeepsBelow(v0: Vol, v: Vol, i: nat, off: nat) {
    && Shape(v0) && Shape(v) && i < |v0.inodes| == |v.inodes|
    && (forall i' :: 0 <= i' < |v.inodes| && i' != i ==> Contents(v, i') == Contents(v0, i'))
    && (if off <= v0.inodes[i].size then off <= v.inodes[i].size && Contents(v, i)[..off] == Contents(v0, i)[..off]
        else Contents(v, i) == Contents(v0, i))
  }

  lemma KeepsMore(v0: Vol, u: Vol, v: Vol, i: nat, off: nat)
    requires KeepsBelow(v0, u, i, off) && KeepsBelow(u, v, i, off)
    ensures KeepsBelow(v0, v, i, off)
  {
    hide Contents;
  }

  lemma KeepsAll(v: Vol, i: nat, off: nat)
    requires Shape(v) && i < |v.inodes|
    ensures KeepsBelow(v, v, i, off)
  {
  }

  lemma ChunkKeeps(u: Vol, v: Vol, i: nat, off: nat, j: nat, data: seq<Byte>, tot: nat)
    requires Shape(u) && Shape(v) && i < |u.inodes| == |v.inodes| && off + j <= u.inodes[i].size && tot <= |data|
    requires Contents(v, i) == Splice(Contents(u, i), off + j, data)[..Max(u.inodes[i].size, off + j + tot)]
    requires forall i' :: 0 <= i' < |v.inodes| && i' != i ==> Contents(v, i') == Contents(u, i')
    ensures KeepsBelow(u, v, i, off)
  {
    hide Contents;
  }

  /** One write after another. */
  lemma WriteOn(v0: Vol, w0: map<nat, (nat, nat)>, u: Vol, uw: map<nat, (nat, nat)>, v: Vol, w: map<nat, (nat, nat)>,
                i: nat, off: nat, a: seq<Byte>, b: seq<Byte>, j: nat)
    requires WriteAt(v0, w0, u, uw, i, off, a, |a|) && WriteAt(u, uw, v, w, i, off + |a|, b, j)
    ensures WriteAt(v0, w0, v, w, i, off, a + b, |a| + j)
  {
    hide Charged, Span, Progressed, Shape;
    ProgressOn(v0, u, v, i, off, a, b, j);
    SpanNothing(off + |a|);
    if j > 0 {
      SpanOn(off, |a|, j, |a| + j);
      ChargeOn(v0, w0, u, uw, v, w, i, off / BSIZE, Span(off, |a|), (off + |a|) / BSIZE, Span(off + |a|, j));
    } else {
      ChargeSame(v0, w0, u, uw, v, w, i, off / BSIZE, Span(off, |a|), (off + |a|) / BSIZE);
    }
  }

  lemma SpanNothing(off: nat)
    ensures Span(off, 0) == 0
  {
  }

  lemma ProgressOn(v0: Vol, u: Vol, v: Vol, i: nat, off: nat, a: seq<Byte>, b: seq<Byte>, j: nat)
    requires Shape(v0) && Shape(u) && Shape(v) && i < |v0.inodes| == |u.inodes| == |v.inodes| && j <= |b|
    requires Progressed(v0, u, i, off, a, |a|) && Progressed(u, v, i, off + |a|, b, j)
    ensures Progressed(v0, v, i, off, a + b, |a| + j)
    ensures j > 0 ==> off + |a| + j <= MAXBYTES
  {
    hide Contents, Splice, Shape;
    assert a[..|a|] == a && (a + b)[..|a| + j] == a + b[..j];
    if |a| > 0 && j > 0 { SpliceTwice(Contents(v0, i), off, a, b[..j]); }
    if j == 0 { assert a + b[..j] == a; }
    if |a| == 0 { assert a + b[..j] == b[..j]; }
  }

  /** A write that put nothing in, after one that was cut short. */
  lemma WriteLonger(v0: Vol, w0: map<nat, (nat, nat)>, u: Vol, uw: map<nat, (nat, nat)>, v: Vol,
                    w: map<nat, (nat, nat)>, i: nat, off: nat, a: seq<Byte>, done: nat, b: seq<Byte>)
    requires WriteAt(v0, w0, u, uw, i, off, a, done) && WriteAt(u, uw, v, w, i, off + done, b, 0)
    ensures WriteAt(v0, w0, v, w, i, off, a + b, done)
  {
    hide Charged, Contents, Shape, Splice;
    assert (a + b)[..done] == a[..done];
    SpanNothing(off + done);
    hide Span;
    ChargeSame(v0, w0, u, uw, v, w, i, off / BSIZE, Span(off, done), (off + done) / BSIZE);
  }

  /** A write that runs out of blocks after another one that did not. */
  lemma WriteOnStop(v0: Vol, w0: map<nat, (nat, nat)>, u: Vol, uw: map<nat, (nat, nat)>, i: nat, off: nat, a: seq<Byte>,
                    n: nat)
    requires WriteAt(v0, w0, u, uw, i, off, a, |a|) && Owns(v0, w0) && Owns(u, uw) && off + |a| + n <= MAXBYTES
    requires |Unmarked(u)| < BlocksFor(u, i, (off + |a|) / BSIZE, Span(off + |a|, n))
    ensures |Unmarked(v0)| < BlocksFor(v0, i, off / BSIZE, Span(off, |a| + n))
  {
    RoomIs(v0, w0);
    RoomIs(u, uw);
    hide Owns, Unmarked, Room, Progressed;
    if n > 0 {
      SpanOn(off, |a|, n, |a| + n);
      hide Span, BlocksFor, Charged;
      ChargeStopOn(v0, w0, u, uw, i, off / BSIZE, Span(off, |a|), (off + |a|) / BSIZE, Span(off + |a|, n),
                   Span(off, |a| + n));
    }
  }

  lemma SpanPiece(off: nat, j: nat, n1: nat, n: nat, piece: Source)
    requires 0 < n1 == |piece.bytes| && j + n1 <= n
    ensures off / BSIZE <= (off + j) / BSIZE
    ensures (off + j) / BSIZE + Visited(off + j, piece) <= off / BSIZE + Span(off, n)
    ensures off + j + n1 <= MAXBYTES ==> (off + j) / BSIZE + Visited(off + j, piece) <= MAXFILE
  {
    SpanOn(off, j, n1, n);
    SpanGrows(off + j, Min(n1, piece.reach + 1), n1);
    hide Span;
  }

  /** A chunk takes from the free blocks what the whole write needs less afterwards. */
  lemma ChunkBalance(v0: Vol, w0: map<nat, (nat, nat)>, u: Vol, uw: map<nat, (nat, nat)>, v: Vol,
                     w: map<nat, (nat, nat)>, i: nat, off: nat, j: nat, n1: nat, n: nat, piece: Source)
    requires Balanced(v0, w0, u, uw, i, off / BSIZE, Span(off, n)) && 0 < n1 == |piece.bytes| && j + n1 <= n
    requires Charged(u, uw, v, w, i, (off + j) / BSIZE, Visited(off + j, piece)) && off + j + n1 <= MAXBYTES
    ensures Balanced(v0, w0, v, w, i, off / BSIZE, Span(off, n))
  {
    hide Balanced, Charged, Span, Visited;
    SpanPiece(off, j, n1, n, piece);
    BalancedOn(v0, w0, u, uw, v, w, i, off / BSIZE, Span(off, n), (off + j) / BSIZE, Visited(off + j, piece));
  }

  lemma ChunkShort(v0: Vol, w0: map<nat, (nat, nat)>, u: Vol, uw: map<nat, (nat, nat)>, i: nat, off: nat, j: nat,
                   n1: nat, n: nat, piece: Source)
    requires Balanced(v0, w0, u, uw, i, off / BSIZE, Span(off, n)) && 0 < n1 == |piece.bytes| && j + n1 <= n &&
             Owns(u, uw)
    requires |Unmarked(u)| < BlocksFor(u, i, (off + j) / BSIZE, Visited(off + j, piece))
    ensures Room(v0, w0) < BlocksFor(v0, i, off / BSIZE, Span(off, n))
  {
    hide Span, Visited, Unmarked, Owns, Room, BlocksFor;
    RoomIs(u, uw);
    SpanPiece(off, j, n1, n, piece);
    BalancedStop(v0, w0, u, uw, i, off / BSIZE, Span(off, n), (off + j) / BSIZE, Visited(off + j, piece));
  }

  lemma ChunkRefused(v0: Vol, w0: map<nat, (nat, nat)>, u: Vol, uw: map<nat, (nat, nat)>, i: nat, off: nat,
                     src: seq<Byte>, j: nat, n1: nat)
    requires WriteAt(v0, w0, u, uw, i, off, src, j) && j + n1 <= |src| && !WriteFits(u, i, off + j, n1)
    ensures !WriteFits(v0, i, off, |src|)
    ensures off <= v0.inodes[i].size ==> off + j + n1 > MAXBYTES
  {
    ProgressRefused(v0, u, i, off, src, j, n1);
    RefusedChunk(v0, u, i, off, src, j, n1);
    hide Progressed, Charged;
  }

  lemma ChunkWritten(v0: Vol, w0: map<nat, (nat, nat)>, u: Vol, uw: map<nat, (nat, nat)>, v: Vol,
                     w: map<nat, (nat, nat)>, i: nat, off: nat, src: seq<Byte>, j: nat, n1: nat, piece: Source,
                     tot: nat)
    requires WriteAt(v0, w0, u, uw, i, off, src, j) && 0 < n1 && j + n1 <= |src| && piece.bytes == src[j..j + n1] &&
             piece.reach >= n1
    requires Shape(v) && |v.inodes| == |v0.inodes| && WriteFits(u, i, off + j, n1) && StopsAtBlock(off + j, tot, n1, n1)
    requires Contents(v, i) ==
             Splice(Contents(u, i), off + j, piece.bytes[..n1])[..Max(u.inodes[i].size, off + j + tot)]
    requires forall i' :: 0 <= i' < |v.inodes| && i' != i ==> Contents(v, i') == Contents(u, i')
    requires Charged(u, uw, v, w, i, (off + j) / BSIZE, Visited(off + j, piece))
    ensures WriteAt(v0, w0, v, w, i, off, src, j + n1)
  {
    hide Contents, Splice, Charged, Progressed, Span, Shape, BlocksFor;
    WroteWhole(off + j, tot, n1);
    ProgressStep(v0, u, v, i, off, src, j, n1);
    SpanNone(off + j, piece);
    SpanOn(off, j, n1, |src|);
    ChargeOn(v0, w0, u, uw, v, w, i, off / BSIZE, Span(off, j), (off + j) / BSIZE, Span(off + j, n1));
  }

  lemma WroteWhole(off: nat, tot: nat, n: nat)
    requires StopsAtBlock(off, tot, n, n)
    ensures tot == n
  {
  }

  lemma ProgressNothing(v: Vol, i: nat, off: nat, src: seq<Byte>)
    requires Shape(v) && i < |v.inodes|
    ensures Progressed(v, v, i, off, src, 0)
  {
  }

  lemma ProgressStep(v0: Vol, u: Vol, v: Vol, i: nat, off: nat, src: seq<Byte>, j: nat, n1: nat)
    requires Shape(v0) && Shape(u) && Shape(v) && i < |v0.inodes| == |u.inodes| == |v.inodes|
    requires 0 < n1 && j + n1 <= |src| && Progressed(v0, u, i, off, src, j)
    requires WriteFits(u, i, off + j, n1)
    requires Contents(v, i) ==
             Splice(Contents(u, i), off + j, src[j..j + n1][..n1])[..Max(u.inodes[i].size, off + j + n1)]
    requires forall i' :: 0 <= i' < |v.inodes| && i' != i ==> Contents(v, i') == Contents(u, i')
    ensures Progressed(v0, v, i, off, src, j + n1)
  {
    hide Contents, Splice, Shape;
    var piece, c := src[j..j + n1], Contents(u, i);
    assert piece[..n1] == piece;
    var r := Splice(c, off + j, piece);
    assert r[..|r|] == r;
    if j > 0 {
      SpliceTwice(Contents(v0, i), off, src[..j], piece);
      assert src[..j] + piece == src[..j + n1];
    } else {
      assert piece == src[..n1];
    }
  }

  /** writei refuses a chunk only when the whole write does not fit. */
  lemma ProgressRefused(v0: Vol, u: Vol, i: nat, off: nat, src: seq<Byte>, j: nat, n1: nat)
    requires Shape(v0) && Shape(u) && i < |v0.inodes| == |u.inodes|
    requires j + n1 <= |src| && Progressed(v0, u, i, off, src, j) && !WriteFits(u, i, off + j, n1)
    ensures !WriteFits(v0, i, off, |src|)
  {
  }

  /** If the write starts inside the file, the chunk it stops at is too far out. */
  lemma RefusedChunk(v0: Vol, u: Vol, i: nat, off: nat, src: seq<Byte>, j: nat, n1: nat)
    requires Shape(v0) && Shape(u) && i < |v0.inodes| == |u.inodes|
    requires j + n1 <= |src| && Progressed(v0, u, i, off, src, j) && !WriteFits(u, i, off + j, n1)
    ensures off <= v0.inodes[i].size ==> off + j + n1 > MAXBYTES
  {
  }

  /** The blocks of j bytes and then of n1 more are those of j + n1 bytes. */
  lemma SpanOn(off: nat, j: nat, n1: nat, n: nat)
    requires 0 < n1 && j + n1 <= n
    ensures off / BSIZE <= (off + j) / BSIZE <= off / BSIZE + Span(off, j)
    ensures off / BSIZE + Span(off, j) <= (off + j) / BSIZE + Span(off + j, n1) == off / BSIZE + Span(off, j + n1)
    ensures Span(off, j + n1) <= Span(off, n)
    ensures off + j + n1 <= MAXBYTES ==> (off + j) / BSIZE + Span(off + j, n1) <= MAXFILE
  {
    SpanEnd(off, j + n1);
    SpanEnd(off + j, n1);
    if j > 0 { SpanEnd(off, j); }
    SpanGrows(off, j + n1, n);
  }

  /** The blocks of n bytes end with the block of the last byte. */
  lemma SpanEnd(off: nat, n: nat)
    requires 0 < n
    ensures off / BSIZE + Span(off, n) == (off + n - 1) / BSIZE + 1
  {
    var q := off % BSIZE;
    assert off + n - 1 == off / BSIZE * BSIZE + (q + n - 1);
    assert (q + n + BSIZE - 1) / BSIZE == (q + n - 1) / BSIZE + 1;
  }

  lemma ProgressEnd(v0: Vol, v: Vol, i: nat, off: nat, src: seq<Byte>, j: nat)
    requires Shape(v0) && Shape(v) && i < |v0.inodes| == |v.inodes| && j <= |src|
    requires Progressed(v0, v, i, off, src, j)
    requires j < |src| ==> !WriteFits(v0, i, off, |src|)
    ensures j == |src| <==> src == [] || WriteFits(v0, i, off, |src|)
    ensures forall i' :: 0 <= i' < |v.inodes| && i' != i ==> Contents(v, i') == Contents(v0, i')
    ensures if off <= v0.inodes[i].size
            then Contents(v, i) == Splice(Contents(v0, i), off, src[..j])
            else Contents(v, i) == Contents(v0, i)
  {
    if j == 0 && off <= v0.inodes[i].size {
      assert Splice(Contents(v0, i), off, src[..0]) == Contents(v0, i);
    }
  }

  ghost predicate SameShape(v: Vol, v': Vol) {
    && v'.sb == v.sb && |v'.inodes| == |v.inodes|
  }

  /** Where the loop stops short of a failed copy: at the start, or at a block boundary
      less than one block before the first byte that could not be read. */
  ghost predicate StopsAtBlock(off: nat, tot: nat, c: nat, n: nat) {
    if c == n then tot == n else (tot == 0 || (off + tot) % BSIZE == 0) && c - tot < BSIZE
  }

  lemma StopsWhole(off: nat, n: nat)
    ensures StopsAtBlock(off, n, n, n)
  {
  }

  lemma StopsShort(off: nat, tot: nat, c: nat, n: nat)
    requires tot <= c < n && (tot == 0 || (off + tot) % BSIZE == 0) && c - tot < BSIZE
    ensures StopsAtBlock(off, tot, c, n)
  {
  }

  /** The blocks touched by n bytes from off on. */
  function Span(off: nat, n: nat): nat {
    if n == 0 then 0 else (off % BSIZE + n + BSIZE - 1) / BSIZE
  }

  /** A bound on the distinct blocks that the loop of writei logs: one data block and one
      bitmap block per block spanned, the indirect block and its bitmap block; the first
      block of an unaligned write is already mapped and needs no bitmap block. */
  function WriteCost(off: nat, n: nat): nat {
    2 * Span(off, n) + 2 - (if n > 0 && off % BSIZE != 0 then 1 else 0)
  }

  ghost function IndirectNew(v0: Vol, v: Vol, i: nat): nat
    requires Shape(v0) && Shape(v) && i < |v0.inodes| == |v.inodes|
  {
    if SlotAddr(v0, i, NDIRECT) == 0 && SlotAddr(v, i, NDIRECT) != 0 then 1 else 0
  }

  ghost function IndirectSet(v: Vol, i: nat): set<nat>
    requires Shape(v) && i < |v.inodes|
  {
    if SlotAddr(v, i, NDIRECT) == 0 then {} else {SlotAddr(v, i, NDIRECT)}
  }

  /** The account of a write in progress: D the data blocks, B the bitmap blocks. */
  ghost predicate Spent(v0: Vol, v: Vol, i: nat, off: nat, log0: set<nat>, log: set<nat>,
                        D: set<nat>, B: set<nat>, its: nat, added: nat)
    requires Shape(v0) && Shape(v) && i < |v0.inodes| == |v.inodes|
  {
    && |D| <= its && |B| <= added + IndirectNew(v0, v, i)
    && added <= its && (off % BSIZE != 0 && its > 0 ==> added < its)
    && log <= log0 + D + B + IndirectSet(v, i)
  }

  /** its passes of writei's loop have been made: tot bytes are in place, the blocks logged
      are accounted for, and so are the blocks allocated. */
  ghost predicate InLoop(v0: Vol, w0: map<nat, (nat, nat)>, log0: set<nat>, v: Vol, w: map<nat, (nat, nat)>,
                         log: set<nat>, i: nat, off: nat, src: Source, tot: nat, its: nat) {
    && Shape(v0) && Shape(v) && i < |v0.inodes| == |v.inodes|
    && Owns(v, w) && Wrote(v0, v, i, off, src.bytes, tot) && Charged(v0, w0, v, w, i, off / BSIZE, its)
    && exists D, B, added :: Spent(v0, v, i, off, log0, log, D, B, its, added)
  }

  lemma LoopStarts(v: Vol, w: map<nat, (nat, nat)>, log: set<nat>, i: nat, off: nat, src: Source)
    requires Owns(v, w) && i < |v.inodes| && off + |src.bytes| <= MAXBYTES
    ensures InLoop(v, w, log, v, w, log, i, off, src, 0, 0)
    ensures Span(off, 0) == 0 <= Span(off, |src.bytes|)
    ensures |src.bytes| <= src.reach ==> Visited(off, src) == Span(off, |src.bytes|)
  {
    WroteNothing(v, i, off, src.bytes);
    SpentNothing(v, i, off, log);
    ChargeNone(v, w, i, off / BSIZE);
    SpanNone(off, src);
    hide Wrote, Charged, Spent;
  }

  lemma LoopEnds(v0: Vol, w0: map<nat, (nat, nat)>, log0: set<nat>, v: Vol, w: map<nat, (nat, nat)>, log: set<nat>,
                 i: nat, off: nat, src: Source, tot: nat, its: nat)
    requires InLoop(v0, w0, log0, v, w, log, i, off, src, tot, its) && its <= Span(off, |src.bytes|)
    ensures Owns(v, w) && Wrote(v0, v, i, off, src.bytes, tot) && Charged(v0, w0, v, w, i, off / BSIZE, its)
    ensures |log| <= |log0| + WriteCost(off, |src.bytes|)
  {
    hide Wrote, Charged, Spent, Owns, WriteCost;
    var D, B, added :| Spent(v0, v, i, off, log0, log, D, B, its, added);
    SpentTotal(v0, v, i, off, |src.bytes|, log0, log, D, B, its, added);
  }

  lemma SpentNothing(v: Vol, i: nat, off: nat, log: set<nat>)
    requires Shape(v) && i < |v.inodes|
    ensures Spent(v, v, i, off, log, log, {}, {}, 0, 0)
  {
  }

  /** An unaligned write starts inside a mapped block. */
  lemma FirstIsMapped(v0: Vol, v: Vol, i: nat, off: nat, src: seq<Byte>, tot: nat)
    requires Shape(v0) && i < |v0.inodes| && NoHoles(v0, i) && off <= v0.inodes[i].size
    requires Wrote(v0, v, i, off, src, tot) && off + tot < MAXBYTES
    ensures (off + tot) / BSIZE < MAXFILE
    ensures tot == 0 && off % BSIZE != 0 ==> BlockOf(v, i, (off + tot) / BSIZE) != 0
    ensures SlotAddr(v0, i, NDIRECT) != 0 ==> SlotAddr(v, i, NDIRECT) == SlotAddr(v0, i, NDIRECT)
  {
    if tot == 0 && off % BSIZE != 0 {
      assert off / BSIZE * BSIZE < off;
      assert BlockOf(v0, i, off / BSIZE) != 0;
    }
  }

  lemma SpentStep(v0: Vol, u: Vol, v: Vol, i: nat, off: nat, log0: set<nat>, log1: set<nat>, log: set<nat>,
                  D: set<nat>, B: set<nat>, its: nat, added: nat, bn: nat, a: nat, bits: set<nat>)
    requires Shape(v0) && Shape(u) && Shape(v) && i < |v0.inodes| == |u.inodes| == |v.inodes| && bn < MAXFILE
    requires Spent(v0, u, i, off, log0, log1, D, B, its, added)
    requires IndirectKept(u, v, i, bn) && |bits| <= FreshBlocks(u, i, bn)
    requires log <= log1 + bits + {a} + IndirectOf(v, i, bn)
    requires its == 0 && off % BSIZE != 0 ==> BlockOf(u, i, bn) != 0
    requires SlotAddr(v0, i, NDIRECT) != 0 ==> SlotAddr(u, i, NDIRECT) == SlotAddr(v0, i, NDIRECT)
    ensures Spent(v0, v, i, off, log0, log, D + {a}, B + bits, its + 1,
                  added + if BlockOf(u, i, bn) == 0 then 1 else 0)
  {
    CardUnion(D, {a});
    CardUnion(B, bits);
  }

  lemma SpentTotal(v0: Vol, v: Vol, i: nat, off: nat, n: nat, log0: set<nat>, log: set<nat>,
                   D: set<nat>, B: set<nat>, its: nat, added: nat)
    requires Shape(v0) && Shape(v) && i < |v0.inodes| == |v.inodes|
    requires Spent(v0, v, i, off, log0, log, D, B, its, added) && its <= Span(off, n)
    ensures |log| <= |log0| + WriteCost(off, n)
  {
    var I := IndirectSet(v, i);
    CardSubset(log, log0 + D + B + I);
    CardUnion(log0 + D + B, I);
    CardUnion(log0 + D, B);
    CardUnion(log0, D);
  }

  /** The bitmap has size / BPB + 1 blocks at most. */
  lemma TruncationCost(sb: Super, log: set<nat>, inode: nat)
    requires log <= sb.BitmapBlocks() + {inode}
    ensures |log| <= sb.size / BPB + 2
  {
    var few := Range(sb.bmapstart, sb.bmapstart + sb.size / BPB + 1);
    RangeSize(sb.bmapstart, sb.bmapstart + sb.size / BPB + 1);
    CardSubset(log, few + {inode});
    CardUnion(few, {inode});
  }

  lemma CardSubset<T>(a: set<T>, b: set<T>)
    requires a <= b
    ensures |a| <= |b|
  {
    assert b == a + (b - a);
    assert |b| == |a| + |b - a|;
  }

  /** `min(n - tot, BSIZE - off%BSIZE)`: what one block still takes. */
  function Chunk(left: nat, at: nat): (m: nat)
    requires left > 0
    ensures 0 < m <= left && at % BSIZE + m <= BSIZE
    ensures m < left ==> (at + m) % BSIZE == 0
  {
    var m := Min(left, BSIZE - at % BSIZE);
    assert m == BSIZE - at % BSIZE ==> at + m == (at / BSIZE + 1) * BSIZE;
    m
  }

  /** `off + n < off` in 32-bit arithmetic. */
  lemma WrapCheck(off: nat, n: nat)
    requires off < UINT_LIMIT && n < UINT_LIMIT
    ensures (off + n) % UINT_LIMIT < off <==> off + n >= UINT_LIMIT
    ensures off + n < UINT_LIMIT ==> (off + n) % UINT_LIMIT == off + n
  {
    if off + n >= UINT_LIMIT {
      assert (off + n) % UINT_LIMIT == off + n - UINT_LIMIT;
    }
  }

  lemma SliceJoin<T>(f: seq<T>, a: nat, b: nat, c: nat, d: nat)
    requires a <= b <= d <= c <= |f|
    ensures f[a..b] + f[b..c][..d - b] == f[a..d] && f[b..c][..c - b] == f[b..c]
  {
  }

  function Min(a: nat, b: nat): nat {
    if a < b then a else b
  }

  lemma MappedBelowSize(v: Vol, i: nat, p: nat)
    requires Shape(v) && i < |v.inodes| && NoHoles(v, i) && p < v.inodes[i].size
    ensures p / BSIZE < MAXFILE && BlockOf(v, i, p / BSIZE) != 0
  {
    assert p / BSIZE * BSIZE <= p;
  }

  /** m bytes of one block are the m bytes of the file there. */
  lemma ReadBlock(v: Vol, w: map<nat, (nat, nat)>, i: nat, at: nat, m: nat)
    requires Consistent(v, w) && i < |v.inodes| && at + m <= v.inodes[i].size && at < v.inodes[i].size
    requires at % BSIZE + m <= BSIZE
    ensures BlockOf(v, i, at / BSIZE) < |v.blocks|
    ensures v.blocks[BlockOf(v, i, at / BSIZE)][at % BSIZE..at % BSIZE + m] == Contents(v, i)[at..at + m]
  {
    MappedBelowSize(v, i, at);
    SlotIsData(v, w, i, SlotOf(at / BSIZE));
    var a, q := BlockOf(v, i, at / BSIZE), at % BSIZE;
    var got, want := v.blocks[a][q..q + m], Contents(v, i)[at..at + m];
    forall j | 0 <= j < m ensures got[j] == want[j] {
      assert (at + j) / BSIZE == at / BSIZE && (at + j) % BSIZE == q + j;
      assert want[j] == ByteAt(v, i, at + j);
    }
  }

  /** The bit that balloc looks at is the mark of block b + bi. */
  lemma MarkAt(v: Vol, b: nat, bi: nat)
    requires Shape(v) && b % BPB == 0 && bi < BPB && b + bi < v.sb.size
    ensures v.sb.BitmapBlock(b + bi) == v.sb.BitmapBlock(b) < |v.blocks| && (b + bi) % BPB == bi
    ensures Marked(v, b + bi) == BlockBit(v.blocks[v.sb.BitmapBlock(b)], bi)
  {
    assert (b + bi) / BPB == b / BPB && (b + bi) % BPB == bi;
  }

  lemma CardUnion<T>(a: set<T>, b: set<T>)
    ensures |a + b| <= |a| + |b|
  {
    assert |a + b| == |a| + |b| - |a * b|;
  }
}
