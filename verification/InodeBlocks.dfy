/** Inodes in disk blocks (struct dinode, kernel/fs.h:32-39, and iupdate, kernel/fs.c:222-238),
    and what a block image of the disk says about files. */
module InodeBlocks {
  import opened Blocks
  import opened Volume
  import opened VolumeProofs
  import opened Files

  const DINODE: nat := 16   // words of a struct dinode

  function Signed(h: nat): int { if h < 32768 then h else h - 65536 }

  function Unsigned(n: int): nat
    requires -32768 <= n < 32768
  {
    if n >= 0 then n else n + 65536
  }

  /** Word i of slot k of an inode block. */
  function DinodeWord(b: Block, k: nat, i: nat): nat
    requires k < IPB && i < DINODE
  {
    Word(b, DINODE * k + i)
  }

  /** Slot k of an inode block: four shorts, the size, and the block numbers. */
  function DinodeAt(b: Block, k: nat): Inode
    requires k < IPB
  {
    var w0, w1 := DinodeWord(b, k, 0), DinodeWord(b, k, 1);
    Inode(w0 % 65536, w0 / 65536, w1 % 65536, Signed(w1 / 65536), DinodeWord(b, k, 2),
          seq<nat>(NDIRECT + 1, j requires 0 <= j < NDIRECT + 1 => DinodeWord(b, k, 3 + j)))
  }

  /** The fields of struct dinode can hold this inode. */
  ghost predicate Fits(x: Inode) {
    && x.typ < 65536 && x.major < 65536 && x.minor < 65536 && -32768 <= x.nlink < 32768 && x.size < UINT_LIMIT
    && |x.addrs| == NDIRECT + 1 && forall j :: 0 <= j < NDIRECT + 1 ==> x.addrs[j] < UINT_LIMIT
  }

  function WordsOf(x: Inode): (ws: seq<nat>)
    requires -32768 <= x.nlink < 32768
    ensures |ws| == 3 + |x.addrs|
  {
    [x.typ + 65536 * x.major, x.minor + 65536 * Unsigned(x.nlink), x.size] + x.addrs
  }

  lemma WordsFit(x: Inode)
    requires Fits(x)
    ensures |WordsOf(x)| == DINODE && forall j :: 0 <= j < DINODE ==> WordsOf(x)[j] < UINT_LIMIT
  {
  }

  /** The first n words of ws written over a block from word `at` on. */
  function PutWords(b: Block, at: nat, ws: seq<nat>, n: nat): Block
    requires n <= |ws| && at + |ws| <= WORDS && forall j :: 0 <= j < |ws| ==> ws[j] < UINT_LIMIT
  {
    if n == 0 then b else PutWord(PutWords(b, at, ws, n - 1), at + n - 1, ws[n - 1])
  }

  lemma {:induction false} PutWordsAt(b: Block, at: nat, ws: seq<nat>, n: nat, j: nat)
    requires n <= |ws| && at + |ws| <= WORDS && (forall j :: 0 <= j < |ws| ==> ws[j] < UINT_LIMIT) && j < WORDS
    ensures Word(PutWords(b, at, ws, n), j) == if at <= j < at + n then ws[j - at] else Word(b, j)
  {
    hide Word, PutWord;
    if n > 0 {
      PutWordsAt(b, at, ws, n - 1, j);
      WordOfPutWord(PutWords(b, at, ws, n - 1), at + n - 1, ws[n - 1], j);
    }
  }

  /** What iupdate writes. */
  function PutDinode(b: Block, k: nat, x: Inode): Block
    requires k < IPB && Fits(x)
  {
    WordsFit(x);
    PutWords(b, DINODE * k, WordsOf(x), DINODE)
  }

  /** iupdate stores the inode in its slot and leaves the other fifteen alone. */
  lemma DinodeRoundTrip(b: Block, k: nat, x: Inode, j: nat)
    requires k < IPB && j < IPB && Fits(x)
    ensures DinodeAt(PutDinode(b, k, x), j) == if j == k then x else DinodeAt(b, j)
  {
    WordsFit(x);
    var b', ws := PutDinode(b, k, x), WordsOf(x);
    forall i: nat | i < DINODE ensures DinodeWord(b', j, i) == if j == k then ws[i] else DinodeWord(b, j, i) {
      PutWordsAt(b, DINODE * k, ws, DINODE, DINODE * j + i);
    }
    hide DinodeWord, PutDinode;
    SameWords(b', b, j, k, x);
  }

  lemma SameWords(b': Block, b: Block, j: nat, k: nat, x: Inode)
    requires k < IPB && j < IPB && Fits(x)
    requires forall i: nat :: i < DINODE ==>
               DinodeWord(b', j, i) == if j == k then WordsOf(x)[i] else DinodeWord(b, j, i)
    ensures DinodeAt(b', j) == if j == k then x else DinodeAt(b, j)
  {
    hide DinodeWord;
    assert DinodeWord(b', j, 0) == if j == k then WordsOf(x)[0] else DinodeWord(b, j, 0);
    assert DinodeWord(b', j, 1) == if j == k then WordsOf(x)[1] else DinodeWord(b, j, 1);
    if j == k {
      Halves(x.typ, x.major);
      Halves(x.minor, Unsigned(x.nlink));
      assert DinodeAt(b', j).addrs == x.addrs;
    } else {
      assert DinodeAt(b', j).addrs == DinodeAt(b, j).addrs;
    }
  }

  lemma Halves(lo: nat, hi: nat)
    requires lo < 65536
    ensures (lo + 65536 * hi) % 65536 == lo && (lo + 65536 * hi) / 65536 == hi
  {
  }

  // ---- images ----------------------------------------------------------------------------

  type Image = map<nat, Block>

  /** Block b of an image is right for the volume: a bitmap, indirect or data block holds its
      bytes, an inode block its inodes. */
  ghost predicate Right(x: Block, b: nat, v: Vol) {
    && (v.sb.bmapstart <= b < |v.blocks| ==> x == v.blocks[b])
    && forall i: nat :: i < |v.inodes| && v.sb.InodeBlock(i) == b ==> DinodeAt(x, i % IPB) == v.inodes[i]
  }

  ghost predicate InodesFit(v: Vol) {
    forall i :: 0 <= i < |v.inodes| ==> Fits(v.inodes[i])
  }

  /** The number of the inode in slot k of block b, if there is one. */
  ghost function InodeIn(v: Vol, b: nat, k: nat): int {
    if b < v.sb.inodestart || (b - v.sb.inodestart) * IPB + k >= |v.inodes| then -1 else (b - v.sb.inodestart) * IPB + k
  }

  /** Inode block b with its first n slots filled in. */
  ghost function Packed(v: Vol, b: nat, n: nat): Block
    requires n <= IPB && InodesFit(v)
  {
    if n == 0 then ZeroBlock()
    else
      var i := InodeIn(v, b, n - 1);
      if i < 0 then Packed(v, b, n - 1) else PutDinode(Packed(v, b, n - 1), n - 1, v.inodes[i])
  }

  lemma {:induction false} PackedAt(v: Vol, b: nat, n: nat, k: nat)
    requires k < n <= IPB && InodesFit(v) && InodeIn(v, b, k) >= 0
    ensures DinodeAt(Packed(v, b, n), k) == v.inodes[InodeIn(v, b, k)]
  {
    hide DinodeAt, PutDinode, InodeIn, Fits;
    var i := InodeIn(v, b, n - 1);
    InodeInRange(v, b, n - 1);
    InodeInRange(v, b, k);
    if i >= 0 { DinodeRoundTrip(Packed(v, b, n - 1), n - 1, v.inodes[i], k); }
    if k < n - 1 { PackedAt(v, b, n - 1, k); }
  }

  lemma InodeInRange(v: Vol, b: nat, k: nat)
    ensures InodeIn(v, b, k) < |v.inodes|
  {
  }

  /** What block b has to hold. */
  ghost function BlockFor(v: Vol, b: nat): Block
    requires InodesFit(v)
  {
    if v.sb.bmapstart <= b < |v.blocks| then v.blocks[b] else Packed(v, b, IPB)
  }

  /** Every block of a volume can be written down. */
  lemma BlockForIsRight(v: Vol, b: nat)
    requires Shape(v) && InodesFit(v)
    ensures Right(BlockFor(v, b), b, v)
  {
    forall i: nat | i < |v.inodes| && v.sb.InodeBlock(i) == b ensures DinodeAt(BlockFor(v, b), i % IPB) == v.inodes[i] {
      assert i == i / IPB * IPB + i % IPB && i / IPB <= |v.inodes| / IPB;
      assert InodeIn(v, b, i % IPB) == i;
      PackedAt(v, b, IPB, i % IPB);
    }
    hide Packed, DinodeAt;
  }

  /** The image holds the volume: its inodes, bitmap, indirect and data blocks. */
  ghost predicate Stands(img: Image, v: Vol) {
    && (forall b: nat :: v.sb.bmapstart <= b < |v.blocks| ==> b in img)
    && (forall i: nat :: i < |v.inodes| ==> v.sb.InodeBlock(i) in img)
    && (forall b: nat :: b in img ==> Right(img[b], b, v))
  }

  /** What the kernel reads from an image. */
  ghost function VolumeIn(img: Image, sb: Super, n: nat): Vol
    requires forall i: nat :: i < n ==> sb.InodeBlock(i) in img
  {
    Vol(sb, seq(sb.size, b requires 0 <= b < sb.size => if b in img then img[b] else ZeroBlock()),
        seq(n, i requires 0 <= i < n => DinodeAt(img[sb.InodeBlock(i)], i % IPB)))
  }

  lemma ReadsInodes(img: Image, v: Vol)
    requires Stands(img, v) && Shape(v)
    ensures VolumeIn(img, v.sb, |v.inodes|).inodes == v.inodes
    ensures forall b: nat :: v.sb.bmapstart <= b < v.sb.size ==>
              VolumeIn(img, v.sb, |v.inodes|).blocks[b] == v.blocks[b]
    ensures Shape(VolumeIn(img, v.sb, |v.inodes|))
  {
    var u := VolumeIn(img, v.sb, |v.inodes|);
    forall i: nat | i < |v.inodes| ensures u.inodes[i] == v.inodes[i] {
      assert Right(img[v.sb.InodeBlock(i)], v.sb.InodeBlock(i), v);
    }
    assert u.inodes == v.inodes;
    forall b: nat | v.sb.bmapstart <= b < v.sb.size ensures u.blocks[b] == v.blocks[b] {
      assert Right(img[b], b, v);
    }
  }

  lemma SameSlot(v: Vol, w: map<nat, (nat, nat)>, u: Vol, i: nat, k: nat)
    requires Owns(v, w) && Shape(u) && u.sb == v.sb && u.inodes == v.inodes && IsSlot(v, i, k)
    requires forall b: nat :: v.sb.bmapstart <= b < v.sb.size ==> u.blocks[b] == v.blocks[b]
    ensures SlotAddr(u, i, k) == SlotAddr(v, i, k)
  {
    hide Owns, Word, Marked;
    OwnsShape(v, w);
    if SlotAddr(v, i, NDIRECT) != 0 { SlotIsData(v, w, i, NDIRECT); }
  }

  lemma MappedByte(v: Vol, w: map<nat, (nat, nat)>, i: nat, p: nat)
    requires Consistent(v, w) && i < |v.inodes| && p < v.inodes[i].size
    ensures p / BSIZE < MAXFILE && BlockOf(v, i, p / BSIZE) != 0
  {
    hide Owns, SlotAddr;
    OwnsShape(v, w);
    assert NoHoles(v, i);
    assert p / BSIZE * BSIZE <= p && p / BSIZE < MAXFILE;
  }

  lemma SameByte(v: Vol, w: map<nat, (nat, nat)>, u: Vol, i: nat, p: nat)
    requires Consistent(v, w) && Shape(u) && u.sb == v.sb && u.inodes == v.inodes && i < |v.inodes| &&
             p < v.inodes[i].size
    requires forall b: nat :: v.sb.bmapstart <= b < v.sb.size ==> u.blocks[b] == v.blocks[b]
    ensures ByteAt(u, i, p) == ByteAt(v, i, p)
  {
    hide Owns, NoHoles, SlotAddr, BlockOf, Marked;
    OwnsShape(v, w);
    MappedByte(v, w, i, p);
    BlockIsSlot(v, i, p / BSIZE);
    BlockIsSlot(u, i, p / BSIZE);
    SameSlot(v, w, u, i, SlotOf(p / BSIZE));
    SlotIsData(v, w, i, SlotOf(p / BSIZE));
  }

  /** An image that holds a consistent volume reads as its files. */
  lemma ReadsContents(img: Image, v: Vol, w: map<nat, (nat, nat)>, i: nat)
    requires Stands(img, v) && Consistent(v, w) && i < |v.inodes|
    ensures var u := VolumeIn(img, v.sb, |v.inodes|); Shape(u) && i < |u.inodes| && Contents(u, i) == Contents(v, i)
  {
    OwnsShape(v, w);
    ReadsInodes(img, v);
    var u := VolumeIn(img, v.sb, |v.inodes|);
    hide Stands, VolumeIn, Owns, NoHoles, ByteAt;
    forall p: nat | p < v.inodes[i].size ensures ByteAt(u, i, p) == ByteAt(v, i, p) {
      SameByte(v, w, u, i, p);
    }
  }
}
