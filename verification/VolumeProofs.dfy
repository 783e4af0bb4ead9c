/** Ownership of blocks is kept by the three ways in which kernel/fs.c extends a file and
    by writing file data. */
module VolumeProofs {
  import opened Blocks
  import opened Volume

  predicate IsSlot(v: Vol, i: nat, k: nat) {
    i < |v.inodes| && k < NSLOTS
  }

  /** Slot k of inode i now holds b; every other slot, every size and every data block
      (any slot but the indirect one) is as before. */
  ghost predicate Grows(v: Vol, v': Vol, i: nat, k: nat, b: nat)
    requires Shape(v)
  {
    && Shape(v') && v'.sb == v.sb && |v'.inodes| == |v.inodes| && IsSlot(v, i, k)
    && SlotAddr(v', i, k) == b
    && (forall i': nat, k': nat :: IsSlot(v, i', k') && (i', k') != (i, k) ==>
        SlotAddr(v', i', k') == SlotAddr(v, i', k'))
    && SameData(v, v') && SameMeta(v, v')
  }

  ghost predicate SameData(v: Vol, v': Vol)
    requires Shape(v)
  {
    && |v'.blocks| == |v.blocks|
    && forall i': nat, k': nat :: IsSlot(v, i', k') && k' != NDIRECT && 0 < SlotAddr(v, i', k') < |v.blocks| ==>
         v'.blocks[SlotAddr(v, i', k')] == v.blocks[SlotAddr(v, i', k')]
  }

  /** Inodes differ in their block lists only. */
  ghost predicate SameMeta(v: Vol, v': Vol) {
    && |v'.inodes| == |v.inodes|
    && forall i' :: 0 <= i' < |v.inodes| ==>
         v'.inodes[i'] == v.inodes[i'].(addrs := v'.inodes[i'].addrs)
  }

  lemma FreeIsData(v: Vol, w: map<nat, (nat, nat)>, b: nat)
    requires Owns(v, w) && b < v.sb.size && !Marked(v, b)
    ensures v.sb.DataStart() <= b && b !in w && b != 0
  {
  }

  lemma SlotIsData(v: Vol, w: map<nat, (nat, nat)>, i: nat, k: nat)
    requires Owns(v, w) && IsSlot(v, i, k) && SlotAddr(v, i, k) != 0
    ensures v.sb.DataStart() <= SlotAddr(v, i, k) < v.sb.size && Marked(v, SlotAddr(v, i, k))
  {
  }

  lemma AllocKeepsBlock(v: Vol, b: nat, c: nat)
    requires Shape(v) && v.sb.DataStart() <= b < v.sb.size && v.sb.DataStart() <= c < v.sb.size
    ensures Allocated(v, b).blocks[c] == if c == b then ZeroBlock() else v.blocks[c]
  {
  }

  /** Marking and zeroing a free block does not disturb any slot. */
  lemma AllocKeepsSlot(v: Vol, w: map<nat, (nat, nat)>, b: nat, i: nat, k: nat)
    requires Owns(v, w) && b < v.sb.size && !Marked(v, b) && IsSlot(v, i, k)
    ensures SlotAddr(Allocated(v, b), i, k) == SlotAddr(v, i, k)
    ensures SlotAddr(v, i, k) != b
  {
    FreeIsData(v, w, b);
    if k > NDIRECT && SlotAddr(v, i, NDIRECT) != 0 {
      SlotIsData(v, w, i, NDIRECT);
      AllocKeepsBlock(v, b, SlotAddr(v, i, NDIRECT));
    }
  }

  lemma AllocKeepsData(v: Vol, w: map<nat, (nat, nat)>, b: nat)
    requires Owns(v, w) && b < v.sb.size && !Marked(v, b)
    ensures SameData(v, Allocated(v, b))
  {
    FreeIsData(v, w, b);
    forall i: nat, k: nat | IsSlot(v, i, k) && SlotAddr(v, i, k) != 0
      ensures Allocated(v, b).blocks[SlotAddr(v, i, k)] == v.blocks[SlotAddr(v, i, k)]
    {
      SlotIsData(v, w, i, k);
      AllocKeepsSlot(v, w, b, i, k);
      AllocKeepsBlock(v, b, SlotAddr(v, i, k));
    }
  }

  /** A volume that grew by one marked block is owned again, the new block by its slot. */
  lemma GrowsOwns(v: Vol, w: map<nat, (nat, nat)>, v': Vol, i: nat, k: nat, b: nat)
    requires Owns(v, w) && b < v.sb.size && !Marked(v, b)
    requires Grows(v, v', i, k, b) && SlotAddr(v, i, k) == 0
    requires forall c: nat :: c < v.sb.size ==> (Marked(v', c) <==> c == b || Marked(v, c))
    ensures Owns(v', w[b := (i, k)])
  {
    OwnsShape(v, w);
    hide Owns, SlotAddr, Marked, Grows, Shape;
    var w' := w[b := (i, k)];
    GrowsShape(v, v', i, k, b);
    GrownMarks(v, w, v', i, k, b, w');
    GrownSlots(v, w, v', i, k, b, w');
    GrownOwners(v, w, v', i, k, b, w');
    OwnsIf(v', w');
  }

  lemma OwnsShape(v: Vol, w: map<nat, (nat, nat)>)
    requires Owns(v, w)
    ensures Shape(v)
  {
  }

  lemma OwnsIf(v: Vol, w: map<nat, (nat, nat)>)
    requires Shape(v)
    requires forall c: nat :: c in w <==> v.sb.DataStart() <= c < v.sb.size && Marked(v, c)
    requires forall c: nat :: c < v.sb.DataStart() ==> Marked(v, c)
    requires forall c :: c in w ==> w[c].0 < |v.inodes| && w[c].1 < NSLOTS && SlotAddr(v, w[c].0, w[c].1) == c
    requires forall i: nat, k: nat :: i < |v.inodes| && k < NSLOTS && SlotAddr(v, i, k) != 0 ==>
               SlotAddr(v, i, k) in w && w[SlotAddr(v, i, k)] == (i, k)
    ensures Owns(v, w)
  {
  }

  lemma GrownMarks(v: Vol, w: map<nat, (nat, nat)>, v': Vol, i: nat, k: nat, b: nat, w': map<nat, (nat, nat)>)
    requires Owns(v, w) && b < v.sb.size && !Marked(v, b) && Grows(v, v', i, k, b) && w' == w[b := (i, k)]
    requires forall c: nat :: c < v.sb.size ==> (Marked(v', c) <==> c == b || Marked(v, c))
    ensures forall c: nat :: c in w' <==> v'.sb.DataStart() <= c < v'.sb.size && Marked(v', c)
    ensures forall c: nat :: c < v'.sb.DataStart() ==> Marked(v', c)
  {
    FreeIsData(v, w, b);
    hide SlotAddr, Marked, SameData, SameMeta;
  }

  lemma GrownSlots(v: Vol, w: map<nat, (nat, nat)>, v': Vol, i: nat, k: nat, b: nat, w': map<nat, (nat, nat)>)
    requires Owns(v, w) && b < v.sb.size && !Marked(v, b) && Shape(v') && Grows(v, v', i, k, b) &&
             SlotAddr(v, i, k) == 0
    requires w' == w[b := (i, k)]
    ensures forall i': nat, k': nat :: i' < |v'.inodes| && k' < NSLOTS && SlotAddr(v', i', k') != 0 ==>
              SlotAddr(v', i', k') in w' && w'[SlotAddr(v', i', k')] == (i', k')
  {
    hide SlotAddr, Marked, Grows, Owns, Shape;
    forall i': nat, k': nat | i' < |v'.inodes| && k' < NSLOTS && SlotAddr(v', i', k') != 0
      ensures SlotAddr(v', i', k') in w' && w'[SlotAddr(v', i', k')] == (i', k')
    {
      GrownSlot(v, w, v', i, k, b, i', k');
    }
  }

  lemma GrowsShape(v: Vol, v': Vol, i: nat, k: nat, b: nat)
    requires Shape(v) && Grows(v, v', i, k, b)
    ensures Shape(v')
  {
  }

  lemma GrownOwners(v: Vol, w: map<nat, (nat, nat)>, v': Vol, i: nat, k: nat, b: nat, w': map<nat, (nat, nat)>)
    requires Owns(v, w) && Shape(v') && Grows(v, v', i, k, b) && SlotAddr(v, i, k) == 0 && w' == w[b := (i, k)]
    ensures forall c :: c in w' ==> w'[c].0 < |v'.inodes| && w'[c].1 < NSLOTS && SlotAddr(v', w'[c].0, w'[c].1) == c
  {
    hide SlotAddr, Grows, Owns, Shape;
    OwnsShape(v, w);
    forall c | c in w' ensures w'[c].0 < |v'.inodes| && w'[c].1 < NSLOTS && SlotAddr(v', w'[c].0, w'[c].1) == c {
      if c != b { OwnerAt(v, w, c); }
      GrownOwner(v, w, v', i, k, b, c);
    }
  }

  lemma OwnerAt(v: Vol, w: map<nat, (nat, nat)>, c: nat)
    requires Owns(v, w) && c in w
    ensures c != 0 && w[c].0 < |v.inodes| && w[c].1 < NSLOTS && SlotAddr(v, w[c].0, w[c].1) == c
  {
    hide Marked, SlotAddr;
  }

  lemma GrownSlot(v: Vol, w: map<nat, (nat, nat)>, v': Vol, i: nat, k: nat, b: nat, i': nat, k': nat)
    requires Owns(v, w) && b < v.sb.size && !Marked(v, b) && Grows(v, v', i, k, b) && SlotAddr(v, i, k) == 0
    requires IsSlot(v', i', k') && SlotAddr(v', i', k') != 0
    ensures var w' := w[b := (i, k)]; SlotAddr(v', i', k') in w' && w'[SlotAddr(v', i', k')] == (i', k')
  {
    hide SlotAddr, Marked, SameData, SameMeta;
    if (i', k') != (i, k) {
      assert SlotAddr(v', i', k') == SlotAddr(v, i', k');
    }
  }

  lemma GrownOwner(v: Vol, w: map<nat, (nat, nat)>, v': Vol, i: nat, k: nat, b: nat, c: nat)
    requires Shape(v) && Grows(v, v', i, k, b) && SlotAddr(v, i, k) == 0 && c in w[b := (i, k)]
    requires c != b ==> c != 0 && c in w && w[c].0 < |v.inodes| && w[c].1 < NSLOTS && SlotAddr(v, w[c].0, w[c].1) == c
    ensures var w' := w[b := (i, k)]; w'[c].0 < |v'.inodes| && w'[c].1 < NSLOTS && SlotAddr(v', w'[c].0, w'[c].1) == c
  {
    hide SlotAddr, SameData, SameMeta;
    if c != b {
      assert (w[c].0, w[c].1) != (i, k);
      assert IsSlot(v, w[c].0, w[c].1);
    }
  }

  /** bmap, direct block or indirect block: allocate b and put it into addrs[k]. */
  lemma PutAddr(v: Vol, w: map<nat, (nat, nat)>, i: nat, k: nat, b: nat)
    requires Owns(v, w) && b < v.sb.size && !Marked(v, b)
    requires i < |v.inodes| && k <= NDIRECT && SlotAddr(v, i, k) == 0
    ensures var v' := WithAddr(Allocated(v, b), i, k, b);
            Grows(v, v', i, k, b) && Owns(v', w[b := (i, k)]) && v'.blocks[b] == ZeroBlock()
  {
    var u := Allocated(v, b);
    var v' := WithAddr(u, i, k, b);
    FreeIsData(v, w, b);
    forall i': nat, k': nat | IsSlot(v, i', k') && (i', k') != (i, k)
      ensures SlotAddr(v', i', k') == SlotAddr(v, i', k')
    {
      AllocKeepsSlot(v, w, b, i', k');
      if i' == i && k == NDIRECT && k' > NDIRECT {
        assert Word(ZeroBlock(), k' - NDIRECT - 1) == 0;
      }
    }
    AllocKeepsData(v, w, b);
    AllocMarks(v, v', b);
    GrowsOwns(v, w, v', i, k, b);
  }

  lemma AllocMarks(v: Vol, v': Vol, b: nat)
    requires Shape(v) && Shape(v') && v.sb.DataStart() <= b < v.sb.size && v'.sb == v.sb
    requires forall c :: 0 <= c < v.sb.DataStart() ==> v'.blocks[c] == Allocated(v, b).blocks[c]
    ensures forall c: nat :: c < v.sb.size ==> (Marked(v', c) <==> c == b || Marked(v, c))
  {
    forall c: nat | c < v.sb.size ensures Marked(v', c) <==> c == b || Marked(v, c) {
      MarkedAfterAllocated(v, b, c);
      SameBitmapBlock(Allocated(v, b), v', c);
    }
  }

  lemma SameBitmapBlock(v: Vol, v': Vol, c: nat)
    requires Shape(v) && Shape(v') && v'.sb == v.sb && c < v.sb.size
    requires forall x :: 0 <= x < v.sb.DataStart() ==> v'.blocks[x] == v.blocks[x]
    ensures Marked(v', c) == Marked(v, c)
  {
    assert v.sb.BitmapBlock(c) < v.sb.DataStart();
  }

  /** balloc of b, then `a[k-13] = b` in the indirect block of inode i. */
  function EntryPut(v: Vol, i: nat, k: nat, b: nat): Vol
    requires Shape(v) && b < v.sb.size && IsSlot(v, i, k) && k > NDIRECT
    requires SlotAddr(v, i, NDIRECT) < v.sb.size
  {
    var a := SlotAddr(v, i, NDIRECT);
    WithBlock(Allocated(v, b), a, PutWord(v.blocks[a], k - NDIRECT - 1, b))
  }

  lemma EntrySlot(v: Vol, w: map<nat, (nat, nat)>, i: nat, k: nat, b: nat, i': nat, k': nat)
    requires Owns(v, w) && b < v.sb.size && !Marked(v, b)
    requires IsSlot(v, i, k) && k > NDIRECT && 0 < SlotAddr(v, i, NDIRECT) < v.sb.size
    requires IsSlot(v, i', k')
    ensures SlotAddr(EntryPut(v, i, k, b), i', k') == if (i', k') == (i, k) then b else SlotAddr(v, i', k')
  {
    var a := SlotAddr(v, i, NDIRECT);
    AllocKeepsSlot(v, w, b, i', k');
    if k' > NDIRECT && SlotAddr(v, i', NDIRECT) != 0 {
      if i' == i {
        WordOfPutWord(v.blocks[a], k - NDIRECT - 1, b, k' - NDIRECT - 1);
      } else {
        assert SlotAddr(v, i', NDIRECT) != a by { assert w[a] == (i, NDIRECT); }
      }
    }
  }

  /** bmap, a block listed in the indirect block: allocate b and store it there. */
  lemma PutEntry(v: Vol, w: map<nat, (nat, nat)>, i: nat, k: nat, b: nat)
    requires Owns(v, w) && b < v.sb.size && !Marked(v, b)
    requires IsSlot(v, i, k) && k > NDIRECT && SlotAddr(v, i, k) == 0 && SlotAddr(v, i, NDIRECT) != 0
    ensures SlotAddr(v, i, NDIRECT) < |v.blocks|
    ensures var v' := EntryPut(v, i, k, b);
            Grows(v, v', i, k, b) && Owns(v', w[b := (i, k)]) && v'.blocks[b] == ZeroBlock()
  {
    SlotIsData(v, w, i, NDIRECT);
    FreeIsData(v, w, b);
    var a, v' := SlotAddr(v, i, NDIRECT), EntryPut(v, i, k, b);
    forall i': nat, k': nat | IsSlot(v, i', k')
      ensures SlotAddr(v', i', k') == if (i', k') == (i, k) then b else SlotAddr(v, i', k')
    {
      EntrySlot(v, w, i, k, b, i', k');
    }
    EntryKeepsData(v, w, i, k, b);
    AllocMarks(v, v', b);
    GrowsOwns(v, w, v', i, k, b);
    AllocKeepsBlock(v, b, b);
  }

  lemma EntryKeepsData(v: Vol, w: map<nat, (nat, nat)>, i: nat, k: nat, b: nat)
    requires Owns(v, w) && b < v.sb.size && !Marked(v, b)
    requires IsSlot(v, i, k) && k > NDIRECT && 0 < SlotAddr(v, i, NDIRECT) < v.sb.size
    ensures SameData(v, EntryPut(v, i, k, b))
  {
    var a := SlotAddr(v, i, NDIRECT);
    AllocKeepsData(v, w, b);
    forall i': nat, k': nat | IsSlot(v, i', k') && k' != NDIRECT && SlotAddr(v, i', k') != 0
      ensures SlotAddr(v, i', k') != a
    {
      assert w[a] == (i, NDIRECT);
    }
  }

  /** Writing into a data block that a file owns keeps every slot and all ownership. */
  lemma PokeKeeps(v: Vol, w: map<nat, (nat, nat)>, i: nat, k: nat, data: Block)
    requires Owns(v, w) && IsSlot(v, i, k) && k != NDIRECT && SlotAddr(v, i, k) != 0
    ensures SlotAddr(v, i, k) < v.sb.size
    ensures var v' := WithBlock(v, SlotAddr(v, i, k), data);
            && Owns(v', w)
            && forall i': nat, k': nat :: IsSlot(v, i', k') ==> SlotAddr(v', i', k') == SlotAddr(v, i', k')
  {
    var a := SlotAddr(v, i, k);
    SlotIsData(v, w, i, k);
    var v' := WithBlock(v, a, data);
    forall i': nat, k': nat | IsSlot(v, i', k') ensures SlotAddr(v', i', k') == SlotAddr(v, i', k') {
      if k' > NDIRECT && SlotAddr(v, i', NDIRECT) != 0 {
        assert w[SlotAddr(v, i', NDIRECT)] == (i', NDIRECT) && w[a] == (i, k);
      }
    }
    forall c: nat | c < v.sb.size ensures Marked(v', c) == Marked(v, c) {
      MarkedAfterWithBlock(v, a, data, c);
    }
  }
}
