/** How many blocks a write allocates, and how many there are: when balloc runs out. */
module BlockNeeds {
  import opened Volume

  // ---- the free blocks -----------------------------------------------------------------

  ghost function Unmarked(v: Vol): set<nat>
    requires Shape(v)
  {
    set c: nat | c < v.sb.size && !Marked(v, c)
  }

  /** The free blocks, counted from the other side: data blocks that are in no slot. */
  ghost function Room(v: Vol, w: map<nat, (nat, nat)>): int {
    v.sb.size - v.sb.DataStart() - |w|
  }

  /** The numbers a .. b-1. */
  ghost function Range(a: nat, b: nat): set<nat> {
    if a >= b then {} else Range(a, b - 1) + {b - 1}
  }

  lemma {:induction false} RangeSize(a: nat, b: nat)
    requires a <= b
    ensures |Range(a, b)| == b - a && forall c: nat :: c in Range(a, b) <==> a <= c < b
    decreases b
  {
    if a < b { RangeSize(a, b - 1); }
  }

  lemma RoomIs(v: Vol, w: map<nat, (nat, nat)>)
    requires Owns(v, w)
    ensures |Unmarked(v)| == Room(v, w)
  {
    var d := Range(v.sb.DataStart(), v.sb.size);
    RangeSize(v.sb.DataStart(), v.sb.size);
    assert Unmarked(v) !! w.Keys;
    assert Unmarked(v) + w.Keys == d;
    assert |Unmarked(v) + w.Keys| == |Unmarked(v)| + |w.Keys|;
  }

  ghost predicate AllMarked(v: Vol) {
    Shape(v) && forall c: nat :: c < v.sb.size ==> Marked(v, c)
  }

  lemma RoomTaken(v: Vol, w: map<nat, (nat, nat)>, b: nat, slot: (nat, nat))
    requires Owns(v, w) && b < v.sb.size && !Marked(v, b)
    ensures |w[b := slot]| == |w| + 1 && Room(v, w) > 0
  {
    RoomIs(v, w);
    assert b in Unmarked(v);
    assert w[b := slot].Keys == w.Keys + {b};
    assert |w[b := slot].Keys| == |w.Keys| + 1;
  }

  lemma RoomAllMarked(v: Vol, w: map<nat, (nat, nat)>)
    requires Owns(v, w) && AllMarked(v)
    ensures Room(v, w) == 0
  {
    RoomIs(v, w);
    assert Unmarked(v) == {};
  }

  // ---- the blocks a range of a file lacks -------------------------------------------------

  /** How many blocks bmap(ip, bn) has to allocate: the block, the indirect block. */
  function FreshBlocks(v: Vol, i: nat, bn: nat): nat
    requires Shape(v) && i < |v.inodes| && bn < MAXFILE
  {
    (if BlockOf(v, i, bn) == 0 then 1 else 0)
    + (if bn >= NDIRECT && SlotAddr(v, i, NDIRECT) == 0 then 1 else 0)
  }

  /** What block b adds to that when the blocks from b0 on have been mapped before it. */
  function FreshFor(v: Vol, i: nat, b0: nat, b: nat): nat
    requires Shape(v) && i < |v.inodes|
  {
    if b >= MAXFILE then 0
    else (if BlockOf(v, i, b) == 0 then 1 else 0)
         + (if b >= NDIRECT && SlotAddr(v, i, NDIRECT) == 0 && (b == b0 || b == NDIRECT) then 1 else 0)
  }

  /** The blocks that positions b0 .. b0+k-1 of the file lack, with the indirect block. */
  function BlocksFor(v: Vol, i: nat, b0: nat, k: nat): nat
    requires Shape(v) && i < |v.inodes|
  {
    if k == 0 then 0 else BlocksFor(v, i, b0, k - 1) + FreshFor(v, i, b0, b0 + k - 1)
  }

  /** The blocks that bmap(ip, bn) reads or changes besides the block itself. */
  function IndirectOf(v: Vol, i: nat, bn: nat): set<nat>
    requires Shape(v) && i < |v.inodes|
  {
    if bn >= NDIRECT then {SlotAddr(v, i, NDIRECT)} else {}
  }

  lemma IndirectIs(v: Vol, i: nat, bn: nat)
    requires Shape(v) && i < |v.inodes|
    ensures IndirectOf(v, i, bn) == if bn >= NDIRECT then {SlotAddr(v, i, NDIRECT)} else {}
  {
  }

  lemma RoomSame(v: Vol, v': Vol, w: map<nat, (nat, nat)>)
    requires v'.sb == v.sb
    ensures Room(v', w) == Room(v, w)
  {
  }

  lemma {:induction false} BlocksGrow(v: Vol, i: nat, b0: nat, k: nat, n: nat)
    requires Shape(v) && i < |v.inodes| && k <= n
    ensures BlocksFor(v, i, b0, k) <= BlocksFor(v, i, b0, n)
    decreases n
  {
    if k < n { BlocksGrow(v, i, b0, k, n - 1); }
  }

  /** From v0 to v, exactly the positions b0 .. b0+k-1 of inode i have been mapped. */
  ghost predicate MappedFrom(v0: Vol, v: Vol, i: nat, b0: nat, k: nat)
    requires Shape(v0) && Shape(v) && i < |v0.inodes| == |v.inodes|
  {
    && (forall b: nat :: b < MAXFILE ==>
          if b0 <= b < b0 + k then BlockOf(v, i, b) != 0 else BlockOf(v, i, b) == BlockOf(v0, i, b))
    && (SlotAddr(v, i, NDIRECT) == 0 <==> SlotAddr(v0, i, NDIRECT) == 0 && (k == 0 || b0 + k <= NDIRECT))
  }

  /** Of the slots of inode i only slot k has changed. */
  ghost predicate OnlySlot(v0: Vol, v: Vol, i: nat, k: nat)
    requires Shape(v0) && i < |v0.inodes|
  {
    Shape(v) && |v.inodes| == |v0.inodes| && forall k': nat :: k' < NSLOTS && k' != k ==>
        SlotAddr(v, i, k') == SlotAddr(v0, i, k')
  }

  lemma OnlyNothing(v: Vol, i: nat, k: nat)
    requires Shape(v) && i < |v.inodes|
    ensures OnlySlot(v, v, i, k)
  {
  }

  /** bmap(ip, bn) for a direct block. */
  lemma DirectMapped(v0: Vol, v: Vol, i: nat, bn: nat)
    requires Shape(v0) && i < |v0.inodes| && OnlySlot(v0, v, i, bn) && bn < NDIRECT && SlotAddr(v, i, bn) != 0
    ensures BlockOf(v, i, bn) == SlotAddr(v, i, bn) && BlockOf(v0, i, bn) == SlotAddr(v0, i, bn)
    ensures MappedFrom(v0, v, i, bn, 1) && IndirectKept(v0, v, i, bn)
  {
    hide SlotAddr;
  }

  lemma DirectFresh(v: Vol, i: nat, bn: nat)
    requires Shape(v) && i < |v.inodes| && bn < NDIRECT
    ensures FreshBlocks(v, i, bn) == (if SlotAddr(v, i, bn) == 0 then 1 else 0) &&
            BlockOf(v, i, bn) == SlotAddr(v, i, bn)
  {
    hide SlotAddr;
  }

  /** bmap(ip, bn) for a block behind the indirect block. */
  lemma IndirectMapped(v0: Vol, v1: Vol, v: Vol, i: nat, bn: nat)
    requires Shape(v0) && i < |v0.inodes| && NDIRECT <= bn < MAXFILE && OnlySlot(v0, v1, i, NDIRECT)
    requires SlotAddr(v0, i, NDIRECT) != 0 ==> v1 == v0
    requires SlotAddr(v1, i, NDIRECT) != 0 && OnlySlot(v1, v, i, bn + 1) && BlockOf(v, i, bn) != 0
    ensures MappedFrom(v0, v, i, bn, 1) && IndirectKept(v0, v, i, bn)
    ensures SlotAddr(v, i, NDIRECT) == SlotAddr(v1, i, NDIRECT)
  {
    hide SlotAddr;
    assert SlotAddr(v, i, NDIRECT) == SlotAddr(v1, i, NDIRECT);
  }

  lemma IndirectFresh(v0: Vol, v1: Vol, i: nat, bn: nat)
    requires Shape(v0) && i < |v0.inodes| && NDIRECT <= bn < MAXFILE && OnlySlot(v0, v1, i, NDIRECT)
    ensures BlockOf(v1, i, bn) == BlockOf(v0, i, bn)
    ensures FreshBlocks(v0, i, bn) ==
              (if SlotAddr(v0, i, NDIRECT) == 0 then 1 else 0) + (if BlockOf(v1, i, bn) == 0 then 1 else 0)
    ensures SlotAddr(v0, i, NDIRECT) == 0 ==> BlockOf(v0, i, bn) == 0
  {
  }

  /** bmap(ip, bn) leaves the indirect block number alone, except that it fills in a
      missing one when bn needs it. */
  ghost predicate IndirectKept(u: Vol, v: Vol, i: nat, bn: nat)
    requires Shape(u) && Shape(v) && i < |u.inodes| == |v.inodes|
  {
    && (SlotAddr(u, i, NDIRECT) != 0 || bn < NDIRECT ==> SlotAddr(v, i, NDIRECT) == SlotAddr(u, i, NDIRECT))
    && (bn >= NDIRECT ==> SlotAddr(v, i, NDIRECT) != 0)
  }

  lemma NextFresh(v0: Vol, v: Vol, i: nat, b0: nat, k: nat)
    requires Shape(v0) && Shape(v) && i < |v0.inodes| == |v.inodes| && MappedFrom(v0, v, i, b0, k) && b0 + k < MAXFILE
    ensures FreshBlocks(v, i, b0 + k) == FreshFor(v0, i, b0, b0 + k)
  {
    hide BlockOf, SlotAddr;
  }

  /** Two ranges that meet or overlap. */
  lemma MappedOn(v0: Vol, v: Vol, v': Vol, i: nat, b0: nat, k: nat, c0: nat, s: nat)
    requires Shape(v0) && Shape(v) && Shape(v') && i < |v0.inodes| == |v.inodes| == |v'.inodes|
    requires MappedFrom(v0, v, i, b0, k) && MappedFrom(v, v', i, c0, s) && b0 <= c0 <= b0 + k <= c0 + s
    ensures MappedFrom(v0, v', i, b0, c0 + s - b0)
  {
    hide BlockOf, SlotAddr;
  }

  lemma NoEntries(v: Vol, i: nat, b: nat)
    requires Shape(v) && i < |v.inodes| && b < MAXFILE && BlockOf(v, i, b) != 0
    ensures b >= NDIRECT ==> SlotAddr(v, i, NDIRECT) != 0
  {
  }

  lemma {:induction false} NeedsOn(v0: Vol, v: Vol, i: nat, b0: nat, k: nat, c0: nat, s: nat)
    requires Shape(v0) && Shape(v) && i < |v0.inodes| == |v.inodes|
    requires MappedFrom(v0, v, i, b0, k) && b0 <= c0 <= b0 + k <= c0 + s <= MAXFILE
    ensures BlocksFor(v0, i, b0, k) + BlocksFor(v, i, c0, s) == BlocksFor(v0, i, b0, c0 + s - b0)
    decreases s
  {
    if c0 + s == b0 + k {
      NothingFresh(v0, v, i, b0, k, c0, s);
    } else {
      NeedsOn(v0, v, i, b0, k, c0, s - 1);
      hide BlockOf, SlotAddr;
      assert FreshFor(v, i, c0, c0 + s - 1) == FreshFor(v0, i, b0, c0 + s - 1);
    }
  }

  lemma {:induction false} NothingFresh(v0: Vol, v: Vol, i: nat, b0: nat, k: nat, c0: nat, s: nat)
    requires Shape(v0) && Shape(v) && i < |v0.inodes| == |v.inodes|
    requires MappedFrom(v0, v, i, b0, k) && b0 <= c0 && c0 + s <= b0 + k <= MAXFILE
    ensures BlocksFor(v, i, c0, s) == 0
    decreases s
  {
    if s > 0 {
      NothingFresh(v0, v, i, b0, k, c0, s - 1);
      NoEntries(v, i, c0 + s - 1);
    }
  }

  /** A change that touches no slot. */
  lemma SlotsSame(v0: Vol, v: Vol, v': Vol, i: nat, bn: nat)
    requires Shape(v0) && Shape(v) && i < |v0.inodes| == |v.inodes| && bn < MAXFILE && OnlySlot(v, v', i, NSLOTS)
    requires MappedFrom(v0, v, i, bn, 1) && IndirectKept(v0, v, i, bn)
    ensures MappedFrom(v0, v', i, bn, 1) && IndirectKept(v0, v', i, bn)
    ensures SlotAddr(v', i, NDIRECT) == SlotAddr(v, i, NDIRECT) && IndirectOf(v', i, bn) == IndirectOf(v, i, bn)
  {
    hide SlotAddr;
    forall b: nat | b < MAXFILE ensures BlockOf(v', i, b) == BlockOf(v, i, b) {
      assert SlotAddr(v', i, SlotOf(b)) == SlotAddr(v, i, SlotOf(b));
    }
  }

  /** The positions b0 .. b0+k-1 have been mapped, and paid for with free blocks. */
  ghost predicate Charged(v0: Vol, w0: map<nat, (nat, nat)>, v: Vol, w: map<nat, (nat, nat)>, i: nat, b0: nat, k: nat) {
    && Shape(v0) && Shape(v) && i < |v0.inodes| == |v.inodes| && MappedFrom(v0, v, i, b0, k)
    && 0 <= Room(v, w) == Room(v0, w0) - BlocksFor(v0, i, b0, k)
  }

  lemma ChargeNone(v: Vol, w: map<nat, (nat, nat)>, i: nat, b0: nat)
    requires Owns(v, w) && i < |v.inodes|
    ensures Charged(v, w, v, w, i, b0, 0)
  {
    RoomIs(v, w);
  }

  lemma ChargeOne(v0: Vol, w0: map<nat, (nat, nat)>, u: Vol, uw: map<nat, (nat, nat)>, v: Vol, w: map<nat, (nat, nat)>,
                  i: nat, b0: nat, k: nat)
    requires Charged(v0, w0, u, uw, i, b0, k) && Owns(v, w) && |v.inodes| == |u.inodes| && b0 + k < MAXFILE
    requires MappedFrom(u, v, i, b0 + k, 1) && Room(v, w) == Room(u, uw) - FreshBlocks(u, i, b0 + k)
    ensures Charged(v0, w0, v, w, i, b0, k + 1)
  {
    RoomIs(v, w);
    NextFresh(v0, u, i, b0, k);
    MappedOn(v0, u, v, i, b0, k, b0 + k, 1);
    hide MappedFrom, FreshFor, FreshBlocks, Owns, Room;
  }

  lemma ChargeStop(v0: Vol, w0: map<nat, (nat, nat)>, u: Vol, uw: map<nat, (nat, nat)>, i: nat, b0: nat, k: nat, n: nat)
    requires Charged(v0, w0, u, uw, i, b0, k) && b0 + k < MAXFILE && k < n && Room(u, uw) < FreshBlocks(u, i, b0 + k)
    ensures Room(v0, w0) < BlocksFor(v0, i, b0, n)
  {
    NextFresh(v0, u, i, b0, k);
    BlocksGrow(v0, i, b0, k + 1, n);
    hide MappedFrom, FreshFor, FreshBlocks, Room;
  }

  /** A further range, that may begin in the last block of the first. */
  lemma ChargeOn(v0: Vol, w0: map<nat, (nat, nat)>, u: Vol, uw: map<nat, (nat, nat)>, v: Vol, w: map<nat, (nat, nat)>,
                 i: nat, b0: nat, k: nat, c0: nat, s: nat)
    requires Charged(v0, w0, u, uw, i, b0, k) && Charged(u, uw, v, w, i, c0, s) &&
             b0 <= c0 <= b0 + k <= c0 + s <= MAXFILE
    ensures Charged(v0, w0, v, w, i, b0, c0 + s - b0)
  {
    MappedOn(v0, u, v, i, b0, k, c0, s);
    NeedsOn(v0, u, i, b0, k, c0, s);
    hide MappedFrom, Room, BlocksFor;
  }

  lemma ChargeSame(v0: Vol, w0: map<nat, (nat, nat)>, u: Vol, uw: map<nat, (nat, nat)>, v: Vol, w: map<nat, (nat, nat)>,
                   i: nat, b0: nat, k: nat, c0: nat)
    requires Charged(v0, w0, u, uw, i, b0, k) && Charged(u, uw, v, w, i, c0, 0)
    ensures Charged(v0, w0, v, w, i, b0, k)
  {
    hide BlockOf, SlotAddr;
  }

  lemma ChargeStopOn(v0: Vol, w0: map<nat, (nat, nat)>, u: Vol, uw: map<nat, (nat, nat)>, i: nat, b0: nat, k: nat,
                     c0: nat, s: nat, n: nat)
    requires Charged(v0, w0, u, uw, i, b0, k) && b0 <= c0 <= b0 + k <= c0 + s <= MAXFILE && c0 + s <= b0 + n
    requires Room(u, uw) < BlocksFor(u, i, c0, s)
    ensures Room(v0, w0) < BlocksFor(v0, i, b0, n)
  {
    NeedsOn(v0, u, i, b0, k, c0, s);
    BlocksGrow(v0, i, b0, c0 + s - b0, n);
    hide MappedFrom, Room, BlocksFor;
  }

  /** The same, counted on the bitmap. */
  lemma ChargedBlocks(v0: Vol, w0: map<nat, (nat, nat)>, v: Vol, w: map<nat, (nat, nat)>, i: nat, b0: nat, k: nat)
    requires Charged(v0, w0, v, w, i, b0, k) && Owns(v0, w0) && Owns(v, w)
    ensures |Unmarked(v0)| == |Unmarked(v)| + BlocksFor(v0, i, b0, k)
  {
    RoomIs(v0, w0);
    RoomIs(v, w);
    hide Owns, Unmarked, MappedFrom, BlocksFor;
  }

  // ---- needs of parts and wholes ------------------------------------------------------------

  /** The data blocks among them. */
  function DataFor(v: Vol, i: nat, b0: nat, k: nat): nat
    requires Shape(v) && i < |v.inodes|
  {
    if k == 0 then 0
    else DataFor(v, i, b0, k - 1) + (if b0 + k - 1 < MAXFILE && BlockOf(v, i, b0 + k - 1) == 0 then 1 else 0)
  }

  /** The indirect block, if the range gets that far. */
  function IndirectFor(v: Vol, i: nat, b0: nat, k: nat): nat
    requires Shape(v) && i < |v.inodes|
  {
    if k > 0 && b0 < MAXFILE && b0 + k > NDIRECT && SlotAddr(v, i, NDIRECT) == 0 then 1 else 0
  }

  lemma {:induction false} NeedsSplit(v: Vol, i: nat, b0: nat, k: nat)
    requires Shape(v) && i < |v.inodes|
    ensures BlocksFor(v, i, b0, k) == DataFor(v, i, b0, k) + IndirectFor(v, i, b0, k)
  {
    hide BlockOf, SlotAddr;
    if k > 0 { NeedsSplit(v, i, b0, k - 1); }
  }

  lemma {:induction false} DataJoin(v: Vol, i: nat, b0: nat, k: nat, n: nat)
    requires Shape(v) && i < |v.inodes|
    ensures DataFor(v, i, b0, k) + DataFor(v, i, b0 + k, n) == DataFor(v, i, b0, k + n)
    decreases n
  {
    hide BlockOf;
    if n > 0 { DataJoin(v, i, b0, k, n - 1); }
  }

  /** Part c0 .. c0+s-1 of the range, and what is on either side of it. */
  lemma DataParts(v: Vol, i: nat, b0: nat, k: nat, c0: nat, s: nat)
    requires Shape(v) && i < |v.inodes| && b0 <= c0 && c0 + s <= b0 + k
    ensures DataFor(v, i, b0, k) ==
              DataFor(v, i, b0, c0 - b0) + DataFor(v, i, c0, s) + DataFor(v, i, c0 + s, b0 + k - (c0 + s))
  {
    hide DataFor, Shape;
    DataJoin(v, i, b0, c0 - b0, s);
    DataJoin(v, i, b0, c0 + s - b0, b0 + k - (c0 + s));
  }

  lemma PartNeedsLess(v: Vol, i: nat, b0: nat, k: nat, c0: nat, s: nat)
    requires Shape(v) && i < |v.inodes| && b0 <= c0 && c0 + s <= b0 + k
    ensures BlocksFor(v, i, c0, s) <= BlocksFor(v, i, b0, k)
  {
    hide SlotAddr, BlocksFor, DataFor, Shape;
    NeedsSplit(v, i, b0, k);
    NeedsSplit(v, i, c0, s);
    DataParts(v, i, b0, k, c0, s);
  }

  lemma {:induction false} DataSame(v0: Vol, v: Vol, i: nat, c0: nat, s: nat, b0: nat, k: nat)
    requires Shape(v0) && Shape(v) && i < |v0.inodes| == |v.inodes| && MappedFrom(v0, v, i, c0, s)
    requires b0 + k <= c0 || c0 + s <= b0
    ensures DataFor(v, i, b0, k) == DataFor(v0, i, b0, k)
  {
    hide BlockOf;
    if k > 0 { DataSame(v0, v, i, c0, s, b0, k - 1); }
  }

  lemma {:induction false} DataMapped(v0: Vol, v: Vol, i: nat, c0: nat, s: nat, k: nat)
    requires Shape(v0) && Shape(v) && i < |v0.inodes| == |v.inodes| && MappedFrom(v0, v, i, c0, s) && k <= s
    ensures DataFor(v, i, c0, k) == 0
  {
    hide BlockOf;
    if k > 0 { DataMapped(v0, v, i, c0, s, k - 1); }
  }

  /** Mapping a part takes what the part needs off what the whole needs. */
  lemma PartTaken(v0: Vol, v: Vol, i: nat, b0: nat, k: nat, c0: nat, s: nat)
    requires Shape(v0) && Shape(v) && i < |v0.inodes| == |v.inodes| && MappedFrom(v0, v, i, c0, s)
    requires b0 <= c0 && c0 + s <= b0 + k && c0 + s <= MAXFILE
    ensures BlocksFor(v, i, b0, k) + BlocksFor(v0, i, c0, s) == BlocksFor(v0, i, b0, k)
  {
    hide BlocksFor, DataFor, IndirectFor, MappedFrom, Shape;
    NeedsSplit(v, i, b0, k);
    NeedsSplit(v0, i, b0, k);
    NeedsSplit(v0, i, c0, s);
    DataTaken(v0, v, i, b0, k, c0, s);
    IndirectTaken(v0, v, i, b0, k, c0, s);
  }

  lemma DataTaken(v0: Vol, v: Vol, i: nat, b0: nat, k: nat, c0: nat, s: nat)
    requires Shape(v0) && Shape(v) && i < |v0.inodes| == |v.inodes| && MappedFrom(v0, v, i, c0, s)
    requires b0 <= c0 && c0 + s <= b0 + k
    ensures DataFor(v, i, b0, k) + DataFor(v0, i, c0, s) == DataFor(v0, i, b0, k)
  {
    hide DataFor, MappedFrom, Shape;
    DataParts(v, i, b0, k, c0, s);
    DataParts(v0, i, b0, k, c0, s);
    DataSame(v0, v, i, c0, s, b0, c0 - b0);
    DataSame(v0, v, i, c0, s, c0 + s, b0 + k - (c0 + s));
    DataMapped(v0, v, i, c0, s, s);
  }

  lemma IndirectTaken(v0: Vol, v: Vol, i: nat, b0: nat, k: nat, c0: nat, s: nat)
    requires Shape(v0) && Shape(v) && i < |v0.inodes| == |v.inodes| && MappedFrom(v0, v, i, c0, s)
    requires b0 <= c0 && c0 + s <= b0 + k && c0 + s <= MAXFILE
    ensures IndirectFor(v, i, b0, k) + IndirectFor(v0, i, c0, s) == IndirectFor(v0, i, b0, k)
  {
    hide SlotAddr, BlockOf;
  }

  /** What is free and what a range still needs have gone down by the same number. */
  ghost predicate Balanced(v0: Vol, w0: map<nat, (nat, nat)>, v: Vol, w: map<nat, (nat, nat)>, i: nat, b0: nat,
                           k: nat) {
    && Shape(v0) && Shape(v) && i < |v0.inodes| == |v.inodes|
    && Room(v, w) - BlocksFor(v, i, b0, k) == Room(v0, w0) - BlocksFor(v0, i, b0, k)
  }

  lemma BalancedStart(v: Vol, w: map<nat, (nat, nat)>, i: nat, b0: nat, k: nat)
    requires Shape(v) && i < |v.inodes|
    ensures Balanced(v, w, v, w, i, b0, k)
  {
  }

  lemma BalancedOn(v0: Vol, w0: map<nat, (nat, nat)>, u: Vol, uw: map<nat, (nat, nat)>, v: Vol, w: map<nat, (nat, nat)>,
                   i: nat, b0: nat, k: nat, c0: nat, s: nat)
    requires Balanced(v0, w0, u, uw, i, b0, k) && Charged(u, uw, v, w, i, c0, s)
    requires b0 <= c0 && c0 + s <= b0 + k && c0 + s <= MAXFILE
    ensures Balanced(v0, w0, v, w, i, b0, k)
  {
    PartTaken(u, v, i, b0, k, c0, s);
    hide MappedFrom, BlocksFor, Room;
  }

  /** If a part cannot be paid for now, the whole could not at the start. */
  lemma BalancedStop(v0: Vol, w0: map<nat, (nat, nat)>, u: Vol, uw: map<nat, (nat, nat)>, i: nat, b0: nat, k: nat,
                     c0: nat, s: nat)
    requires Balanced(v0, w0, u, uw, i, b0, k) && Room(u, uw) < BlocksFor(u, i, c0, s)
    requires b0 <= c0 && c0 + s <= b0 + k
    ensures Room(v0, w0) < BlocksFor(v0, i, b0, k)
  {
    PartNeedsLess(u, i, b0, k, c0, s);
    hide BlocksFor, Room;
  }
}
