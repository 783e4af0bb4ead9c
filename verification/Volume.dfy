/** The on-disk structures of kernel/fs.c as values: the free bitmap, the block lists of
    inodes, and who owns which block. */
module Volume {
  import opened Blocks

  const NDIRECT: nat := 12
  const NINDIRECT: nat := 256
  const MAXFILE: nat := NDIRECT + NINDIRECT
  const MAXBYTES: nat := MAXFILE * BSIZE
  const BPB: nat := 8 * BSIZE
  const IPB: nat := 16

  // ---- bits --------------------------------------------------------------------------

  /** `x | (1 << k)` */
  function SetBit(x: nat, k: nat): nat {
    if k == 0 then x / 2 * 2 + 1 else 2 * SetBit(x / 2, k - 1) + x % 2
  }

  /** `x & ~(1 << k)` */
  function ClearBit(x: nat, k: nat): nat {
    if k == 0 then x / 2 * 2 else 2 * ClearBit(x / 2, k - 1) + x % 2
  }

  function Pow2(n: nat): nat {
    if n == 0 then 1 else 2 * Pow2(n - 1)
  }

  lemma {:induction false} BitBounds(x: nat, k: nat, n: nat)
    requires k < n && x < Pow2(n)
    ensures SetBit(x, k) < Pow2(n) && ClearBit(x, k) < Pow2(n)
  {
    if k > 0 {
      BitBounds(x / 2, k - 1, n - 1);
    }
  }

  lemma {:induction false} BitAfter(x: nat, k: nat, j: nat)
    ensures BitOf(SetBit(x, k), j) <==> j == k || BitOf(x, j)
    ensures BitOf(ClearBit(x, k), j) <==> j != k && BitOf(x, j)
  {
    if k > 0 && j > 0 {
      BitAfter(x / 2, k - 1, j - 1);
      assert (2 * SetBit(x / 2, k - 1) + x % 2) / 2 == SetBit(x / 2, k - 1);
      assert (2 * ClearBit(x / 2, k - 1) + x % 2) / 2 == ClearBit(x / 2, k - 1);
    }
  }

  lemma Pow2Of8()
    ensures Pow2(8) == 256
  {
    assert Pow2(4) == 16;
  }

  predicate BlockBit(b: Block, bi: nat)
    requires bi < BPB
  {
    BitOf(b[bi / 8], bi % 8)
  }

  function WithBit(b: Block, bi: nat, on: bool): Block
    requires bi < BPB
  {
    Pow2Of8();
    BitBounds(b[bi / 8], bi % 8, 8);
    b[bi / 8 := if on then SetBit(b[bi / 8], bi % 8) else ClearBit(b[bi / 8], bi % 8)]
  }

  lemma BlockBitAfter(b: Block, bi: nat, on: bool, bj: nat)
    requires bi < BPB && bj < BPB
    ensures BlockBit(WithBit(b, bi, on), bj) == if bi == bj then on else BlockBit(b, bj)
  {
    BitAfter(b[bi / 8], bi % 8, bj % 8);
    assert bi == 8 * (bi / 8) + bi % 8 && bj == 8 * (bj / 8) + bj % 8;
  }

  // ---- the volume --------------------------------------------------------------------

  /** The superblock fields that the block layer uses. */
  datatype Super = Super(size: nat, inodestart: nat, bmapstart: nat) {
    /** First data block: mkfs gives size/BPB + 1 blocks to the bitmap. */
    function DataStart(): nat { bmapstart + size / BPB + 1 }
    /** BBLOCK */
    function BitmapBlock(b: nat): nat { b / BPB + bmapstart }
    /** IBLOCK */
    function InodeBlock(inum: nat): nat { inum / IPB + inodestart }

    /** The blocks that hold the bits of all blocks. */
    ghost function BitmapBlocks(): set<nat> {
      set b: nat | b < size :: BitmapBlock(b)
    }
  }

  datatype Inode = Inode(typ: nat, major: nat, minor: nat, nlink: int, size: nat, addrs: seq<nat>)

  /** The cached contents of all blocks, and the in-memory copies of all inodes. */
  datatype Vol = Vol(sb: Super, blocks: seq<Block>, inodes: seq<Inode>)

  predicate Shape(v: Vol) {
    && |v.blocks| == v.sb.size < UINT_LIMIT
    && 0 < v.sb.bmapstart && v.sb.DataStart() <= v.sb.size
    && v.sb.inodestart + |v.inodes| / IPB < v.sb.bmapstart
    && forall i :: 0 <= i < |v.inodes| ==> |v.inodes[i].addrs| == NDIRECT + 1 && v.inodes[i].size <= MAXBYTES
  }

  predicate Marked(v: Vol, b: nat)
    requires Shape(v) && b < v.sb.size
  {
    BlockBit(v.blocks[v.sb.BitmapBlock(b)], b % BPB)
  }

  const NSLOTS: nat := NDIRECT + 1 + NINDIRECT

  /** The block number in slot k of inode i: 0..11 are the direct blocks, 12 the indirect
      block, 13.. its entries; 0 means none. */
  function SlotAddr(v: Vol, i: nat, k: nat): nat
    requires Shape(v) && i < |v.inodes| && k < NSLOTS
  {
    var addrs := v.inodes[i].addrs;
    if k <= NDIRECT then addrs[k]
    else if addrs[NDIRECT] == 0 || addrs[NDIRECT] >= |v.blocks| then 0
    else Word(v.blocks[addrs[NDIRECT]], k - NDIRECT - 1)
  }

  /** The slot of the file's bn-th block. */
  function SlotOf(bn: nat): nat {
    if bn < NDIRECT then bn else bn + 1
  }

  function BlockOf(v: Vol, i: nat, bn: nat): nat
    requires Shape(v) && i < |v.inodes| && bn < MAXFILE
  {
    SlotAddr(v, i, SlotOf(bn))
  }

  /** The ownership map w: the marked data blocks are exactly the blocks that sit in some
      inode slot, each in one slot only. */
  ghost predicate Owns(v: Vol, w: map<nat, (nat, nat)>) {
    && Shape(v)
    && (forall b: nat :: b in w <==> v.sb.DataStart() <= b < v.sb.size && Marked(v, b))
    && (forall b: nat :: b < v.sb.DataStart() ==> Marked(v, b))
    && (forall b :: b in w ==> w[b].0 < |v.inodes| && w[b].1 < NSLOTS && SlotAddr(v, w[b].0, w[b].1) == b)
    && (forall i: nat, k: nat :: i < |v.inodes| && k < NSLOTS && SlotAddr(v, i, k) != 0 ==>
          SlotAddr(v, i, k) in w && w[SlotAddr(v, i, k)] == (i, k))
  }

  /** What ownership means: block numbers in distinct slots are distinct, they are marked
      and outside the metadata, and every marked data block is in some slot. */
  lemma OwnershipMeans(v: Vol, w: map<nat, (nat, nat)>)
    requires Owns(v, w)
    ensures forall i: nat, k: nat, i': nat, k': nat ::
              i < |v.inodes| && k < NSLOTS && i' < |v.inodes| && k' < NSLOTS ==>
              SlotAddr(v, i, k) != 0 && SlotAddr(v, i, k) == SlotAddr(v, i', k') ==> (i, k) == (i', k')
    ensures forall i: nat, k: nat :: i < |v.inodes| && k < NSLOTS && SlotAddr(v, i, k) != 0 ==>
              v.sb.DataStart() <= SlotAddr(v, i, k) < v.sb.size && Marked(v, SlotAddr(v, i, k))
    ensures forall b: nat :: v.sb.DataStart() <= b < v.sb.size && Marked(v, b) ==>
              exists i: nat, k: nat :: i < |v.inodes| && k < NSLOTS && SlotAddr(v, i, k) == b
  {
    forall b: nat | v.sb.DataStart() <= b < v.sb.size && Marked(v, b)
      ensures exists i: nat, k: nat :: i < |v.inodes| && k < NSLOTS && SlotAddr(v, i, k) == b
    {
      assert SlotAddr(v, w[b].0, w[b].1) == b;
    }
  }

  // ---- what the block operations do to a volume --------------------------------------

  function SetMark(v: Vol, b: nat, on: bool): (v': Vol)
    requires Shape(v) && b < v.sb.size
    ensures Shape(v')
  {
    var bb := v.sb.BitmapBlock(b);
    Vol(v.sb, v.blocks[bb := WithBit(v.blocks[bb], b % BPB, on)], v.inodes)
  }

  function ZeroBlock(): (b: Block)
    ensures forall i :: 0 <= i < BSIZE ==> b[i] == 0
  {
    seq(BSIZE, i => 0)
  }

  /** balloc's effect: block b is marked and zeroed. */
  function Allocated(v: Vol, b: nat): (v': Vol)
    requires Shape(v) && b < v.sb.size
    ensures Shape(v')
  {
    WithBlock(SetMark(v, b, true), b, ZeroBlock())
  }

  function WithBlock(v: Vol, b: nat, data: Block): (v': Vol)
    requires Shape(v) && b < v.sb.size
    ensures Shape(v')
  {
    Vol(v.sb, v.blocks[b := data], v.inodes)
  }

  function WithAddr(v: Vol, i: nat, k: nat, a: nat): (v': Vol)
    requires Shape(v) && i < |v.inodes| && k <= NDIRECT
    ensures Shape(v')
  {
    var ip := v.inodes[i];
    Vol(v.sb, v.blocks, v.inodes[i := Inode(ip.typ, ip.major, ip.minor, ip.nlink, ip.size, ip.addrs[k := a])])
  }

  lemma MarkedAfterSetMark(v: Vol, b: nat, on: bool, c: nat)
    requires Shape(v) && b < v.sb.size && c < v.sb.size
    ensures Marked(SetMark(v, b, on), c) == if b == c then on else Marked(v, c)
  {
    hide WithBit, BlockBit;
    var bb := v.sb.BitmapBlock(b);
    if bb == v.sb.BitmapBlock(c) {
      BlockBitAfter(v.blocks[bb], b % BPB, on, c % BPB);
      SameQuotient(b, c);
    }
  }

  lemma SameQuotient(b: nat, c: nat)
    requires b / BPB == c / BPB
    ensures b % BPB == c % BPB <==> b == c
  {
    assert b == b / BPB * BPB + b % BPB && c == c / BPB * BPB + c % BPB;
  }

  /** Changing a block outside the bitmap leaves the marks alone. */
  lemma MarkedAfterWithBlock(v: Vol, b: nat, data: Block, c: nat)
    requires Shape(v) && v.sb.DataStart() <= b < v.sb.size && c < v.sb.size
    ensures Marked(WithBlock(v, b, data), c) == Marked(v, c)
  {
  }

  lemma MarkedAfterAllocated(v: Vol, b: nat, c: nat)
    requires Shape(v) && v.sb.DataStart() <= b < v.sb.size && c < v.sb.size
    ensures Marked(Allocated(v, b), c) <==> b == c || Marked(v, c)
  {
    MarkedAfterSetMark(v, b, true, c);
    MarkedAfterWithBlock(SetMark(v, b, true), b, ZeroBlock(), c);
  }
}
