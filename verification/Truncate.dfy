/** itrunc on values: giving back every block of one inode, block by block, keeps the
    ownership of everything else and never frees a free block. */
module Truncate {
  import opened Blocks
  import opened Volume
  import opened VolumeProofs
  import opened Files

  /** How far itrunc has come: direct blocks below d, indirect entries below e, and the
      indirect block itself. */
  datatype Progress = Progress(d: nat, e: nat, indirect: bool) {
    predicate Covers(k: nat) {
      k < d || NDIRECT < k < NDIRECT + 1 + e || (indirect && k == NDIRECT)
    }
  }

  const EVERYTHING: Progress := Progress(NDIRECT, NINDIRECT, true)

  ghost predicate Freed(w0: map<nat, (nat, nat)>, i: nat, p: Progress, c: nat) {
    c in w0 && w0[c].0 == i && p.Covers(w0[c].1)
  }

  /** v is v0 with the marks of the covered slots cleared, and no other bitmap bit and no
      block outside the bitmap changed. */
  ghost predicate Freeing(v0: Vol, w0: map<nat, (nat, nat)>, v: Vol, i: nat, p: Progress)
    requires Shape(v0)
  {
    && Shape(v) && v.sb == v0.sb && |v.inodes| == |v0.inodes|
    && (forall c: nat :: v.sb.DataStart() <= c < v.sb.size ==> v.blocks[c] == v0.blocks[c])
    && (forall c: nat :: c < v.sb.size ==> (Marked(v, c) <==> Marked(v0, c) && !Freed(w0, i, p, c)))
  }

  /** The log grew by bitmap blocks only, and holds every block that changed. */
  ghost predicate LogsBits(v0: Vol, log0: set<nat>, v: Vol, log: set<nat>) {
    v.sb == v0.sb && Logs(v0, log0, v, log) && log <= log0 + v0.sb.BitmapBlocks()
  }

  lemma LogsBitsOn(v0: Vol, log0: set<nat>, u: Vol, log1: set<nat>, v: Vol, log: set<nat>)
    requires LogsBits(v0, log0, u, log1) && LogsBits(u, log1, v, log)
    ensures LogsBits(v0, log0, v, log)
  {
    LogsOn(v0, log0, u, log1, v, log);
    hide Logs;
  }

  lemma LogsBitsNone(v: Vol, log: set<nat>)
    ensures LogsBits(v, log, v, log)
  {
  }

  lemma LogsBitsMark(v: Vol, b: nat, log: set<nat>)
    requires Shape(v) && b < v.sb.size
    ensures LogsBits(v, log, SetMark(v, b, false), log + {v.sb.BitmapBlock(b)})
  {
    LogsMark(v, b, false, log);
  }

  lemma LogsBitsInodes(v0: Vol, log0: set<nat>, v: Vol, v': Vol, log: set<nat>)
    requires LogsBits(v0, log0, v, log) && v'.blocks == v.blocks && v'.sb == v.sb
    ensures LogsBits(v0, log0, v', log)
  {
  }

  lemma TruncatedThrough(v0: Vol, log0: set<nat>, x: Vol, log1: set<nat>, v: Vol, i: nat)
    requires LogsBits(v0, log0, x, log1) && OnlyInode(v0, x, i)
    requires v.sb == v0.sb && v.blocks == x.blocks && OnlyInode(x, v, i)
    ensures Through(v0, log0, v, log1 + {v.sb.InodeBlock(i)}, i)
    ensures log1 <= log0 + v.sb.BitmapBlocks()
  {
    ThroughWrite(v0, log0, x, log1, v, i);
  }

  lemma FreeNothing(v: Vol, w: map<nat, (nat, nat)>, i: nat)
    requires Shape(v)
    ensures Freeing(v, w, v, i, Progress(0, 0, false))
  {
  }

  /** The next block to free is marked, and clearing its mark makes progress. */
  lemma FreeStep(v0: Vol, w0: map<nat, (nat, nat)>, v: Vol, i: nat, p: Progress, q: Progress, k: nat)
    requires Owns(v0, w0) && i < |v0.inodes| && k < NSLOTS && SlotAddr(v0, i, k) != 0
    requires Freeing(v0, w0, v, i, p) && !p.Covers(k)
    requires forall j: nat :: q.Covers(j) <==> p.Covers(j) || j == k
    ensures SlotAddr(v0, i, k) < v.sb.size && Marked(v, SlotAddr(v0, i, k))
    ensures Freeing(v0, w0, SetMark(v, SlotAddr(v0, i, k), false), i, q)
  {
    var a := SlotAddr(v0, i, k);
    NextIsMarked(v0, w0, v, i, p, k);
    ClearKeepsData(v, a);
    hide Owns, SlotAddr, Marked, SetMark, Freed;
    var v' := SetMark(v, a, false);
    forall c: nat | c < v.sb.size ensures Marked(v', c) <==> Marked(v0, c) && !Freed(w0, i, q, c) {
      MarkedAfterSetMark(v, a, false, c);
      FreedNext(v0, w0, i, p, q, k, c);
    }
  }

  lemma NextIsMarked(v0: Vol, w0: map<nat, (nat, nat)>, v: Vol, i: nat, p: Progress, k: nat)
    requires Owns(v0, w0) && i < |v0.inodes| && k < NSLOTS && SlotAddr(v0, i, k) != 0
    requires Freeing(v0, w0, v, i, p) && !p.Covers(k)
    ensures var a := SlotAddr(v0, i, k); v.sb.DataStart() <= a < v.sb.size && Marked(v, a)
  {
    var a := SlotAddr(v0, i, k);
    SlotIsData(v0, w0, i, k);
    assert w0[a] == (i, k);
    hide SlotAddr;
  }

  /** Clearing a mark touches no data block. */
  lemma ClearKeepsData(v: Vol, a: nat)
    requires Shape(v) && a < v.sb.size
    ensures var v' := SetMark(v, a, false);
            && Shape(v') && v'.sb == v.sb && |v'.inodes| == |v.inodes|
            && forall c: nat :: v.sb.DataStart() <= c < v.sb.size ==> v'.blocks[c] == v.blocks[c]
  {
  }

  lemma FreedNext(v0: Vol, w0: map<nat, (nat, nat)>, i: nat, p: Progress, q: Progress, k: nat, c: nat)
    requires Owns(v0, w0) && i < |v0.inodes| && k < NSLOTS && SlotAddr(v0, i, k) != 0
    requires forall j: nat :: q.Covers(j) <==> p.Covers(j) || j == k
    ensures Freed(w0, i, q, c) <==> Freed(w0, i, p, c) || c == SlotAddr(v0, i, k)
  {
    if c in w0 {
      assert SlotAddr(v0, w0[c].0, w0[c].1) == c;
    }
  }

  /** A slot that holds nothing can be skipped. */
  lemma SkipStep(v0: Vol, w0: map<nat, (nat, nat)>, v: Vol, i: nat, p: Progress, q: Progress)
    requires Owns(v0, w0) && i < |v0.inodes| && Freeing(v0, w0, v, i, p)
    requires forall j: nat :: p.Covers(j) ==> q.Covers(j)
    requires forall j: nat :: j < NSLOTS && q.Covers(j) && !p.Covers(j) ==> SlotAddr(v0, i, j) == 0
    ensures Freeing(v0, w0, v, i, q)
  {
    forall c: nat | c < v.sb.size ensures Freed(w0, i, p, c) == Freed(w0, i, q, c) {
      if c in w0 && w0[c].0 == i {
        assert SlotAddr(v0, i, w0[c].1) == c != 0;
      }
    }
  }

  lemma FreeingSameBlocks(v0: Vol, w0: map<nat, (nat, nat)>, v: Vol, v': Vol, i: nat, p: Progress)
    requires Shape(v0) && Freeing(v0, w0, v, i, p)
    requires Shape(v') && v'.sb == v.sb && v'.blocks == v.blocks && |v'.inodes| == |v.inodes|
    ensures Freeing(v0, w0, v', i, p)
  {
    forall c: nat | c < v.sb.size ensures Marked(v', c) == Marked(v, c) {
      SameBitmapBlock(v, v', c);
    }
  }

  function Empty(ip: Inode): Inode {
    Inode(ip.typ, ip.major, ip.minor, ip.nlink, 0, seq(NDIRECT + 1, _ => 0))
  }

  ghost function OwnedByOthers(w: map<nat, (nat, nat)>, i: nat): map<nat, (nat, nat)> {
    map b | b in w && w[b].0 != i :: w[b]
  }

  /** The inode with its first k direct blocks dropped. */
  function Cut(ip: Inode, k: nat): Inode
    requires |ip.addrs| == NDIRECT + 1 && k <= NDIRECT
  {
    Inode(ip.typ, ip.major, ip.minor, ip.nlink, ip.size, seq(k, _ => 0) + ip.addrs[k..])
  }

  lemma CutNothing(ip: Inode)
    requires |ip.addrs| == NDIRECT + 1
    ensures Cut(ip, 0) == ip
  {
  }

  lemma CutOneMore(ip: Inode, k: nat)
    requires |ip.addrs| == NDIRECT + 1 && k < NDIRECT
    ensures var c := Cut(ip, k);
            && |c.addrs| == NDIRECT + 1 && c.addrs[k] == ip.addrs[k]
            && Inode(c.typ, c.major, c.minor, c.nlink, c.size, c.addrs[k := 0]) == Cut(ip, k + 1)
            && (c.addrs[k] == 0 ==> c == Cut(ip, k + 1))
  {
    var c := Cut(ip, k);
    assert c.addrs[k := 0] == Cut(ip, k + 1).addrs;
  }

  /** When everything is freed, the inode is empty and all other files are untouched. */
  lemma AllFreed(v0: Vol, w0: map<nat, (nat, nat)>, v: Vol, i: nat)
    requires Consistent(v0, w0) && i < |v0.inodes| && Freeing(v0, w0, v, i, EVERYTHING)
    requires v.inodes == v0.inodes[i := Empty(v0.inodes[i])]
    ensures Consistent(v, OwnedByOthers(w0, i))
    ensures forall k: nat :: k < NSLOTS ==> SlotAddr(v, i, k) == 0
    ensures forall i' :: 0 <= i' < |v.inodes| && i' != i ==> Contents(v, i') == Contents(v0, i')
  {
    var w := OwnedByOthers(w0, i);
    forall i': nat, k: nat | IsSlot(v, i', k)
      ensures SlotAddr(v, i', k) == if i' == i then 0 else SlotAddr(v0, i', k)
    {
      OthersKept(v0, w0, v, i, i', k);
    }
    forall b: nat | b < v.sb.size ensures b in w <==> v.sb.DataStart() <= b && Marked(v, b) {
    }
    forall i': nat | i' < |v.inodes| && i' != i
      ensures NoHoles(v, i') && Contents(v, i') == Contents(v0, i')
    {
      OtherFileKept(v0, w0, v, i, i');
    }
  }

  lemma OthersKept(v0: Vol, w0: map<nat, (nat, nat)>, v: Vol, i: nat, i': nat, k: nat)
    requires Owns(v0, w0) && i < |v0.inodes| && Freeing(v0, w0, v, i, EVERYTHING) && IsSlot(v0, i', k)
    requires v.inodes == v0.inodes[i := Empty(v0.inodes[i])]
    ensures SlotAddr(v, i', k) == if i' == i then 0 else SlotAddr(v0, i', k)
  {
    if i' != i && k > NDIRECT && SlotAddr(v0, i', NDIRECT) != 0 {
      SlotIsData(v0, w0, i', NDIRECT);
    }
  }

  lemma OtherFileKept(v0: Vol, w0: map<nat, (nat, nat)>, v: Vol, i: nat, i': nat)
    requires Consistent(v0, w0) && i < |v0.inodes| && Freeing(v0, w0, v, i, EVERYTHING)
    requires i' < |v0.inodes| && i' != i && v.inodes == v0.inodes[i := Empty(v0.inodes[i])]
    ensures NoHoles(v, i') && Contents(v, i') == Contents(v0, i')
  {
    assert NoHoles(v0, i');
    forall bn: nat | bn < MAXFILE ensures BlockOf(v, i', bn) == BlockOf(v0, i', bn) {
      OthersKept(v0, w0, v, i, i', SlotOf(bn));
    }
    forall p: nat | p < v0.inodes[i'].size ensures ByteAt(v, i', p) == ByteAt(v0, i', p) {
      assert p / BSIZE * BSIZE <= p;
      assert BlockOf(v0, i', p / BSIZE) != 0;
      SlotIsData(v0, w0, i', SlotOf(p / BSIZE));
    }
  }

  lemma EverySlotCovered(v: Vol, w: map<nat, (nat, nat)>, i: nat)
    requires Owns(v, w)
    ensures forall c: nat :: Freed(w, i, EVERYTHING, c) <==> c in w && w[c].0 == i
  {
  }
}
