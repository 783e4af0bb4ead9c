/** user/umalloc.c: the Kernighan and Ritchie allocator, with its headers, its circular
    free list and the two pointer-chasing searches. */
module Umalloc {
  import opened FreeList

  const HEADER: nat := 16       // sizeof(Header)
  const MORECORE: nat := 4096   // units asked of sbrk at least
  const INT_LIMIT: nat := 0x8000_0000

  /** The units malloc looks for: the payload rounded up, and one header. */
  function Units(nbytes: nat): (u: nat)
    ensures u >= 1 && (u - 1) * 16 >= nbytes && (nbytes > 0 ==> (u - 2) * 16 < nbytes)
  {
    (nbytes + HEADER - 1) / HEADER + 1
  }

  /** Where in the ring a block at x belongs. */
  ghost function Place(nodes: seq<nat>, x: nat): (k: nat)
    requires Sorted(nodes) && |nodes| >= 1 && nodes[0] < x && x !in nodes
    ensures Between(nodes, k, x)
  {
    if nodes[|nodes| - 1] < x then |nodes| - 1 else Place(nodes[..|nodes| - 1], x)
  }

  class Heap {
    const base: nat               // the address of the static header `base`
    var ptr: map<nat, nat>        // s.ptr of every header
    var size: map<nat, nat>       // s.size of every header
    var freep: nat                // 0 is the null pointer
    var top: nat                  // sbrk returns nothing below this
    ghost var nodes: seq<nat>
    ghost var blk: map<nat, nat>
    ghost var obtained: nat       // units got from sbrk so far

    ghost predicate Valid()
      reads this
    {
      && 0 < base < top && obtained == Total(blk)
      && (freep == 0 ==> nodes == [] && blk == map[])
      && (freep != 0 ==> Listed(base, nodes, blk) && Coalesced(nodes, blk) && Linked())
    }

    /** The memory really holds the list nodes and the block sizes blk. */
    ghost predicate Linked()
      reads this
    {
      && Tiled(base, top, blk) && Ring(nodes, ptr) && freep in nodes
      && Sized()
    }

    /** The blocks handed out and not yet freed. */
    ghost function InUse(): map<nat, nat>
      reads this
    {
      Live(nodes, blk)
    }

    /** What Valid means to a program: the blocks in use and the free blocks do not
        overlap, and together they are all the units ever obtained from sbrk. */
    lemma HeapIsSound(a: nat, b: nat)
      requires Valid() && freep != 0
      ensures obtained == Total(InUse()) + Total(FreeList.Free(nodes, blk))
      ensures a in InUse() && b in FreeList.Free(nodes, blk) ==>
                a + InUse()[a] <= b || b + FreeList.Free(nodes, blk)[b] <= a
      ensures a in InUse() && b in InUse() && a < b ==> a + InUse()[a] <= b
    {
      Conservation(nodes, blk);
    }

    constructor (base: nat, top: nat)
      requires 0 < base < top
      ensures Valid() && InUse() == map[] && obtained == 0 && this.base == base
    {
      this.base, this.top, this.freep := base, top, 0;
      ptr, size, nodes, blk, obtained := map[], map[], [], map[], 0;
    }

    /** The search of free: the list node behind which bp goes. It always ends. */
    method FindPlace(bp: nat) returns (p: nat, ghost k: nat)
      requires Listed(base, nodes, blk) && Linked() && bp in blk && bp !in nodes
      ensures Between(nodes, k, bp) && p == nodes[k]
    {
      ghost var n, goal := |nodes|, Place(nodes, bp);
      p := freep;
      k :| 0 <= k < n && nodes[k] == p;
      while true
        invariant k < n && p == nodes[k]
        decreases Dist(k, goal, n)
      {
        assert Links(nodes, ptr, k);
        var next := ptr[p];
        if bp > p && bp < next {
          break;
        }
        if p >= next && (bp > p || bp < next) {
          break;
        }
        assert k != goal;
        p := next;
        k := Succ(k, n);
      }
      LastNode(nodes, ptr, k);
    }

    /** free: the block leaves the blocks in use, nothing is lost, and the list is again
        sorted, circular and coalesced. */
    method Free(bp: nat)
      requires Valid() && bp in InUse()
      modifies this
      ensures Valid() && InUse() == old(InUse()) - {bp}
      ensures obtained == old(obtained) && top == old(top) && freep != 0
      ensures Covering(nodes, blk, bp, old(blk)[bp])
    {
      hide Listed, Coalesced, CoalescedBut, Tiled, Ring, Live, Total, Covering;
      LiveMeans(nodes, blk, bp);
      var p;
      ghost var k := 0;
      p, k := FindPlace(bp);
      LinkNext(p, bp, k);
      LinkPrev(p, bp, k);
      freep := p;
      CoveringMore(nodes, blk, bp, old(blk)[bp]);
    }

    /** Every header on the list and every block has its size in memory. */
    ghost predicate Sized()
      reads this
    {
      base in size && size[base] == 0 && forall a :: a in blk ==> a in size && size[a] == blk[a]
    }

    /** free, joining upwards: bp takes over its successor when they touch. The link from
        p to bp is still missing. */
    method LinkNext(p: nat, bp: nat, ghost k: nat)
      requires 0 < base && Sized() && Listed(base, nodes, blk) && Coalesced(nodes, blk) && Tiled(base, top, blk)
      requires Ring(nodes, ptr) && bp in blk && bp !in nodes && Between(nodes, k, bp) && p == nodes[k]
      modifies this`ptr, this`size, this`nodes, this`blk
      ensures Sized() && Listed(base, nodes, blk) && CoalescedBut(nodes, blk, k, k + 1) && Tiled(base, top, blk)
      ensures Ring(nodes, ptr[p := bp]) && k + 1 < |nodes| && nodes[k] == p && nodes[k + 1] == bp && bp in ptr
      ensures bp in blk && blk[bp] >= old(blk)[bp] && Total(blk) == Total(old(blk))
      ensures Live(nodes, blk) == Live(old(nodes), old(blk)) - {bp}
    {
      hide Listed, Coalesced, CoalescedBut, Tiled, Ring, Live, Total;
      ghost var n0, p0, b0 := nodes, ptr, blk;
      RingAt(nodes, ptr, k);
      var next := ptr[p];
      ghost var join := bp + size[bp] == next;
      NextIsBlock(base, top, nodes, ptr, blk, k, bp);
      if bp + size[bp] == next {
        size := size[bp := size[bp] + size[next]];
        ptr := ptr[bp := ptr[next]];
      } else {
        ptr := ptr[bp := next];
      }
      JoinNext(base, top, n0, p0, b0, k, bp, join);
      nodes, blk := NodesNext(n0, k, bp, join), BlocksNext(n0, p0, b0, k, bp, join);
    }

    /** free, joining downwards: p takes over bp when they touch, else points to it. */
    method LinkPrev(p: nat, bp: nat, ghost k: nat)
      requires 0 < base && Sized() && Listed(base, nodes, blk) && CoalescedBut(nodes, blk, k, k + 1) &&
               Tiled(base, top, blk)
      requires Ring(nodes, ptr[p := bp]) && k + 1 < |nodes| && nodes[k] == p && nodes[k + 1] == bp
      requires bp in blk && bp in ptr
      modifies this`ptr, this`size, this`nodes, this`blk
      ensures Sized() && Listed(base, nodes, blk) && Coalesced(nodes, blk) && Tiled(base, top, blk) && Ring(nodes, ptr)
      ensures p in nodes && p != 0 && Total(blk) == Total(old(blk)) && Live(nodes, blk) == Live(old(nodes), old(blk))
      ensures Covering(nodes, blk, bp, old(blk)[bp])
    {
      hide Listed, Coalesced, CoalescedBut, Tiled, Ring, Live, Total, Covering;
      ghost var n1, b1, p1 := nodes, blk, ptr[p := bp];
      PrevIsBlock(base, n1, b1, k, bp);
      if p + size[p] == bp {
        size := size[p := size[p] + size[bp]];
        ptr := ptr[p := ptr[bp]];
        JoinPrev(base, top, n1, p1, b1, k, bp);
        nodes, blk := Removed(n1, k + 1), Merged(b1, p, bp);
        assert ptr == p1[p := p1[bp]];
      } else {
        ptr := ptr[p := bp];
        NoJoinPrev(n1, b1, k, bp);
      }
    }

    /** morecore: a fresh block from sbrk is freed into the list. */
    method Morecore(nu: nat, sbrk: Sbrk) returns (ok: bool)
      requires Valid() && freep != 0 && 0 < nu
      modifies this
      ensures ok == sbrk.Grows? && Valid() && freep != 0 && InUse() == old(InUse())
      ensures !ok ==> nodes == old(nodes) && blk == old(blk) && obtained == old(obtained) && freep == old(freep)
      ensures ok ==> obtained == old(obtained) + CoreUnits(nu) && HasFit(nodes, blk, nu)
    {
      hide Listed, Coalesced, Tiled, Ring, Live, Total, Covering, HasFit;
      var units := nu;
      if units < MORECORE {
        units := MORECORE;
      }
      if sbrk.NoMemory? {
        return false;
      }
      var hp := top + sbrk.gap;
      GrowTiles(base, top, nodes, blk, hp, units);
      ghost var used := InUse();
      LiveMeans(nodes, blk, hp);
      size := size[hp := units];
      blk, top, obtained := blk[hp := units], hp + units, obtained + units;
      LiveMeans(nodes, blk, hp);
      BaseIsNoBlock(base, top, blk);
      Free(hp);
      assert used[hp := units] - {hp} == used;
      FitFromCover(nodes, blk, hp, units, nu);
      return true;
    }

    /** The found block p, behind prevp on the list, is big enough: hand out all of it or
        its tail. */
    method Carve(prevp: nat, p: nat, nunits: nat, ghost i: nat) returns (h: nat)
      requires Valid() && freep != 0 && 0 < nunits
      requires 1 <= i < |nodes| && nodes[i] == p && nodes[i - 1] == prevp && p in blk && blk[p] >= nunits
      modifies this
      ensures Valid() && freep != 0 && obtained == old(obtained)
      ensures h !in old(InUse()) && InUse() == old(InUse())[h := nunits]
      ensures h + nunits == p + old(blk)[p]
    {
      hide Listed, Coalesced, Tiled, Ring, Live, Total;
      RingAt(nodes, ptr, i);
      h := p;
      if size[p] == nunits {
        CarveWhole(base, top, nodes, ptr, blk, i);
        ptr := ptr[prevp := ptr[p]];
        nodes := Removed(nodes, i);
      } else {
        CarveTail(base, top, nodes, blk, i, nunits);
        size := size[p := size[p] - nunits];
        h := p + size[p];
        size := size[h := nunits];
        blk := Split(blk, p, nunits);
      }
      freep := prevp;
    }

    /** malloc: first fit along the ring from freep, with at most one call of morecore, and
        only when nothing on the list fits. Returns the payload, right behind the header,
        or 0. */
    method Malloc(nbytes: nat, sbrk: Sbrk) returns (r: nat)
      requires Valid() && CoreUnits(Units(nbytes)) * HEADER < INT_LIMIT
      modifies this
      ensures Valid() && freep != 0
      ensures r != 0 ==> r - 1 !in old(InUse()) && InUse() == old(InUse())[r - 1 := Units(nbytes)]
      ensures r == 0 ==> InUse() == old(InUse()) && obtained == old(obtained) && sbrk.NoMemory?
      ensures obtained == old(obtained) || (obtained == old(obtained) + CoreUnits(Units(nbytes)) && sbrk.Grows?)
      ensures HasFit(old(nodes), old(blk), Units(nbytes)) ==> r != 0 && obtained == old(obtained)
      ensures HasFit(old(nodes), old(blk), Units(nbytes)) ==>
                FirstFit(old(nodes), old(blk), old(freep), Units(nbytes), r - 1)
    {
      hide Listed, Coalesced, Tiled, Live, Total, HasFit, FirstFit;
      var nunits := Units(nbytes);
      if freep == 0 {
        NoFitYet(blk, nunits);
        Start();
      }
      var prevp := freep;
      ghost var j: nat := IndexOf(nodes, freep);
      ghost var f: nat, g: nat := j, 0;
      ghost var called, n0, b0, p0 := false, nodes, blk, freep;
      RingAt(nodes, ptr, j);
      var p := ptr[prevp];
      while true
        invariant Valid() && freep != 0 && InUse() == old(InUse())
        invariant j < |nodes| && f < |nodes| && prevp == nodes[j] && p == nodes[Succ(j, |nodes|)] && freep == nodes[f]
        invariant !called ==> nodes == n0 && blk == b0 && freep == p0 && obtained == old(obtained)
        invariant !called ==> PassedAreSmall(nodes, blk, Succ(j, |nodes|), f, nunits)
        invariant called ==> sbrk.Grows? && obtained == old(obtained) + CoreUnits(nunits) && !HasFit(n0, b0, nunits)
        invariant called ==> FitAhead(nodes, blk, Succ(j, |nodes|), g, f, nunits)
        decreases !called, Dist(Succ(j, |nodes|), if called then g else f, |nodes|)
      {
        ghost var i := Succ(j, |nodes|);
        NodeSize(base, top, nodes, blk, i);
        if size[p] >= nunits {
          var h := Carve(prevp, p, nunits, i);
          if !called { FitIsFirst(n0, b0, p0, f, i, nunits, h); }
          return h + 1;
        }
        if p == freep {
          SameIndex(base, nodes, blk, i, f);
          NothingFits(base, nodes, blk, i, g, f, nunits, called);
          var ok := Morecore(nunits, sbrk);
          if !ok {
            return 0;
          }
          called := true;
          p := freep;
          f, g := IndexOf(nodes, freep), FitIndex(nodes, blk, nunits);
          i := f;
        }
        prevp := p;
        RingAt(nodes, ptr, i);
        p := ptr[p];
        ghost var i' := Succ(i, |nodes|);
        RingAt(nodes, ptr, i');
        Advance(nodes, blk, i, g, f, nunits, called);
        j := i;
      }
    }

    /** The first call: the list is the static header alone. */
    method Start()
      requires Valid() && freep == 0
      modifies this
      ensures Valid() && freep == base && nodes == [base] && blk == map[] && obtained == old(obtained)
      ensures InUse() == old(InUse())
    {
      ptr := ptr[base := base];
      freep := base;
      size := size[base := 0];
      nodes := [base];
      assert Links(nodes, ptr, 0);
    }
  }

  ghost function IndexOf(nodes: seq<nat>, x: nat): (i: nat)
    requires x in nodes
    ensures i < |nodes| && nodes[i] == x
  {
    var i :| 0 <= i < |nodes| && nodes[i] == x; i
  }

  ghost function FitIndex(nodes: seq<nat>, blk: map<nat, nat>, nu: nat): (i: nat)
    requires HasFit(nodes, blk, nu)
    ensures 1 <= i < |nodes| && nodes[i] in blk && blk[nodes[i]] >= nu
  {
    var i :| 1 <= i < |nodes| && nodes[i] in blk && blk[nodes[i]] >= nu; i
  }

  /** Every block between freep, where the search began, and index i is too small. */
  ghost predicate PassedAreSmall(nodes: seq<nat>, blk: map<nat, nat>, i: nat, f: nat, nu: nat) {
    forall m :: 1 <= m < |nodes| && nodes[m] in blk && Dist(m, f, |nodes|) > Dist(i, f, |nodes|) ==> blk[nodes[m]] < nu
  }

  /** A block that fits lies at index g, between here and freep. */
  ghost predicate FitAhead(nodes: seq<nat>, blk: map<nat, nat>, i: nat, g: nat, f: nat, nu: nat) {
    && 1 <= g < |nodes| && nodes[g] in blk && blk[nodes[g]] >= nu
    && Dist(i, g, |nodes|) <= Dist(i, f, |nodes|)
  }

  /** What the size field of list node i says: nothing for base, the block's size else. */
  lemma NodeSize(base: nat, top: nat, nodes: seq<nat>, blk: map<nat, nat>, i: nat)
    requires Listed(base, nodes, blk) && i < |nodes|
    ensures if i == 0 then nodes[i] == base else nodes[i] in blk
  {
  }

  lemma SameIndex(base: nat, nodes: seq<nat>, blk: map<nat, nat>, i: nat, f: nat)
    requires Listed(base, nodes, blk) && i < |nodes| && f < |nodes| && nodes[i] == nodes[f]
    ensures i == f
  {
  }

  /** Back at freep with nothing found: morecore has not been called, and nothing fits. */
  lemma NothingFits(base: nat, nodes: seq<nat>, blk: map<nat, nat>, i: nat, g: nat, f: nat, nu: nat, called: bool)
    requires Listed(base, nodes, blk) && i == f < |nodes| && (i > 0 && nodes[i] in blk ==> blk[nodes[i]] < nu)
    requires called ==> FitAhead(nodes, blk, i, g, f, nu)
    requires !called ==> PassedAreSmall(nodes, blk, i, f, nu)
    ensures !called && !HasFit(nodes, blk, nu)
  {
    if !called {
      forall m | 1 <= m < |nodes| && nodes[m] in blk ensures blk[nodes[m]] < nu {
        assert m == f || Dist(m, f, |nodes|) > 0;
      }
    }
  }

  /** One step along the ring: nearer to the block that fits, or to freep. */
  lemma Advance(nodes: seq<nat>, blk: map<nat, nat>, i: nat, g: nat, f: nat, nu: nat, called: bool)
    requires i < |nodes| && f < |nodes|
    requires called && i != f ==> FitAhead(nodes, blk, i, g, f, nu) && (i > 0 && nodes[i] in blk ==> blk[nodes[i]] < nu)
    requires called && i == f ==> 1 <= g < |nodes| && nodes[g] in blk && blk[nodes[g]] >= nu
    requires !called ==>
               i != f && PassedAreSmall(nodes, blk, i, f, nu) && (i > 0 && nodes[i] in blk ==> blk[nodes[i]] < nu)
    ensures called ==> FitAhead(nodes, blk, Succ(i, |nodes|), g, f, nu)
    ensures called && i != f ==> Dist(Succ(i, |nodes|), g, |nodes|) < Dist(i, g, |nodes|)
    ensures !called ==> PassedAreSmall(nodes, blk, Succ(i, |nodes|), f, nu)
                        && Dist(Succ(i, |nodes|), f, |nodes|) < Dist(i, f, |nodes|)
  {
    if !called {
      forall m | 1 <= m < |nodes| && nodes[m] in blk && Dist(m, f, |nodes|) > Dist(Succ(i, |nodes|), f, |nodes|)
        ensures blk[nodes[m]] < nu
      {
        assert m == i || Dist(m, f, |nodes|) > Dist(i, f, |nodes|);
      }
    }
  }

  /** What sbrk answers: nothing, or memory that starts gap units above anything handed
      out before. */
  datatype Sbrk = NoMemory | Grows(gap: nat)

  function CoreUnits(nu: nat): (u: nat)
    ensures u >= nu && u >= 4096 && (u == nu || u == 4096)
  {
    if nu < MORECORE then MORECORE else nu
  }

  /** Some block of the list has at least nu units. */
  ghost predicate HasFit(nodes: seq<nat>, blk: map<nat, nat>, nu: nat) {
    exists i :: 1 <= i < |nodes| && nodes[i] in blk && blk[nodes[i]] >= nu
  }

  /** The block at h is the tail of the first block that fits, in the order of the list from
      behind freep on. */
  ghost predicate FirstFit(nodes: seq<nat>, blk: map<nat, nat>, freep: nat, nu: nat, h: int) {
    exists i, f :: && 1 <= i < |nodes| && 0 <= f < |nodes| && nodes[f] == freep
                   && nodes[i] in blk && blk[nodes[i]] >= nu && PassedAreSmall(nodes, blk, i, f, nu)
                   && h + nu == nodes[i] + blk[nodes[i]]
  }

  lemma FitIsFirst(nodes: seq<nat>, blk: map<nat, nat>, freep: nat, f: nat, i: nat, nu: nat, h: int)
    requires 1 <= i < |nodes| && f < |nodes| && nodes[f] == freep
    requires nodes[i] in blk && blk[nodes[i]] >= nu && PassedAreSmall(nodes, blk, i, f, nu)
    requires h + nu == nodes[i] + blk[nodes[i]]
    ensures FirstFit(nodes, blk, freep, nu, h)
  {
  }

  lemma NoFitYet(blk: map<nat, nat>, nu: nat)
    ensures !HasFit([], blk, nu)
  {
  }

  lemma FitFromCover(nodes: seq<nat>, blk: map<nat, nat>, x: nat, units: nat, nu: nat)
    requires Covering(nodes, blk, x, units) && nu <= units
    ensures HasFit(nodes, blk, nu)
  {
    var i :| 1 <= i < |nodes| && nodes[i] in blk && nodes[i] <= x && x + units <= nodes[i] + blk[nodes[i]];
    assert blk[nodes[i]] >= nu;
  }

  lemma BaseIsNoBlock(base: nat, top: nat, blk: map<nat, nat>)
    requires Tiled(base, top, blk)
    ensures base !in blk
  {
  }

  lemma CarveWhole(base: nat, top: nat, nodes: seq<nat>, ptr: map<nat, nat>, blk: map<nat, nat>, i: nat)
    requires Listed(base, nodes, blk) && Coalesced(nodes, blk) && Tiled(base, top, blk) && Ring(nodes, ptr)
    requires 1 <= i < |nodes| && Links(nodes, ptr, i)
    ensures var r := Removed(nodes, i);
            && Listed(base, r, blk) && Coalesced(r, blk) && Ring(r, ptr[nodes[i - 1] := ptr[nodes[i]]])
            && nodes[i - 1] in r && (base > 0 ==> nodes[i - 1] > 0)
    ensures nodes[i] !in Live(nodes, blk)
    ensures Live(Removed(nodes, i), blk) == Live(nodes, blk)[nodes[i] := blk[nodes[i]]]
  {
    hide Removed, Live, Coalesced, Tiled, Listed, Sorted, Ring, Touch;
    NodeAbove(base, nodes, blk, i - 1);
    NodeNotLive(nodes, blk, i);
    StillIn(nodes, i);
    SortedList(base, nodes, blk);
    TakeNode(base, top, nodes, blk, i - 1);
    RingRemove(nodes, ptr, i - 1);
  }

  lemma StillIn(nodes: seq<nat>, i: nat)
    requires 1 <= i < |nodes|
    ensures nodes[i - 1] in Removed(nodes, i)
  {
    RemovedAt(nodes, i, i - 1);
  }

  lemma NodeAbove(base: nat, nodes: seq<nat>, blk: map<nat, nat>, i: nat)
    requires Listed(base, nodes, blk) && i < |nodes|
    ensures nodes[i] >= base
  {
  }

  lemma NodeNotLive(nodes: seq<nat>, blk: map<nat, nat>, i: nat)
    requires i < |nodes|
    ensures nodes[i] !in Live(nodes, blk)
  {
  }

  lemma SortedList(base: nat, nodes: seq<nat>, blk: map<nat, nat>)
    requires Listed(base, nodes, blk)
    ensures Sorted(nodes)
  {
  }

  lemma CarveTail(base: nat, top: nat, nodes: seq<nat>, blk: map<nat, nat>, i: nat, units: nat)
    requires Listed(base, nodes, blk) && Coalesced(nodes, blk) && Tiled(base, top, blk)
    requires 1 <= i < |nodes| && 0 < units < blk[nodes[i]]
    ensures var m, q := Split(blk, nodes[i], units), nodes[i] + blk[nodes[i]] - units;
            && Listed(base, nodes, m) && Coalesced(nodes, m) && Tiled(base, top, m) && Total(m) == Total(blk)
            && q !in Live(nodes, blk) && q !in blk && q != base && Live(nodes, m) == Live(nodes, blk)[q := units]
            && nodes[i - 1] in nodes && (base > 0 ==> nodes[i - 1] > 0)
  {
    hide Coalesced, Total, Live;
    var a := nodes[i];
    LiveMeans(nodes, blk, a + blk[a] - units);
    SplitIsNew(base, top, blk, a, units);
    SplitTiled(base, top, blk, a, units);
    SplitTotal(blk, a, units);
    SplitNodes(base, top, nodes, blk, i, units);
    SplitLive(nodes, blk, a, units);
  }

  ghost function NodesNext(nodes: seq<nat>, k: nat, x: nat, join: bool): seq<nat>
    requires k < |nodes| && (join ==> k + 1 < |nodes|)
  {
    var r := Inserted(nodes, k + 1, x);
    if join then Removed(r, k + 2) else r
  }

  ghost function BlocksNext(nodes: seq<nat>, ptr: map<nat, nat>, blk: map<nat, nat>, k: nat, x: nat,
                            join: bool): map<nat, nat>
    requires k < |nodes| && Links(nodes, ptr, k) && (join ==> x in blk && ptr[nodes[k]] in blk)
  {
    if join then Merged(blk, x, ptr[nodes[k]]) else blk
  }

  /** Some block of the list is at least as large as the freed one and contains it. */
  ghost predicate Covering(nodes: seq<nat>, blk: map<nat, nat>, x: nat, units: nat) {
    exists i :: 1 <= i < |nodes| && nodes[i] in blk && nodes[i] <= x && x + units <= nodes[i] + blk[nodes[i]]
  }

  lemma CoveringMore(nodes: seq<nat>, blk: map<nat, nat>, x: nat, units: nat)
    ensures forall more :: more >= units && Covering(nodes, blk, x, more) ==> Covering(nodes, blk, x, units)
  {
    forall more | more >= units && Covering(nodes, blk, x, more) ensures Covering(nodes, blk, x, units) {
      var i :| 1 <= i < |nodes| && nodes[i] in blk && nodes[i] <= x && x + more <= nodes[i] + blk[nodes[i]];
    }
  }

  lemma LiveMeans(nodes: seq<nat>, blk: map<nat, nat>, x: nat)
    ensures x in Live(nodes, blk) <==> x in blk && x !in nodes
  {
  }

  lemma RingAt(nodes: seq<nat>, ptr: map<nat, nat>, k: nat)
    requires Ring(nodes, ptr) && k < |nodes|
    ensures Links(nodes, ptr, k)
  {
  }

  /** Only a block can lie right behind another block: never the static header. */
  lemma NextIsBlock(base: nat, top: nat, nodes: seq<nat>, ptr: map<nat, nat>, blk: map<nat, nat>, k: nat, x: nat)
    requires Listed(base, nodes, blk) && Tiled(base, top, blk) && Ring(nodes, ptr)
    requires x in blk && Between(nodes, k, x) && Links(nodes, ptr, k)
    ensures var next := ptr[nodes[k]];
            && (x + blk[x] == next ==> k + 1 < |nodes| && next in blk && next in ptr && next != x)
            && (k + 1 < |nodes| ==> next == nodes[k + 1])
  {
    if k + 1 < |nodes| {
      assert Links(nodes, ptr, k + 1);
    }
  }

  /** The first half of free's linking: x goes in behind node k and swallows its successor
      when they touch. */
  lemma JoinNext(base: nat, top: nat, nodes: seq<nat>, ptr: map<nat, nat>, blk: map<nat, nat>, k: nat, x: nat,
                 join: bool)
    requires Listed(base, nodes, blk) && Coalesced(nodes, blk) && Tiled(base, top, blk) && Ring(nodes, ptr)
    requires x in blk && x !in nodes && Between(nodes, k, x) && Links(nodes, ptr, k)
    requires join <==> x + blk[x] == ptr[nodes[k]]
    requires join ==> k + 1 < |nodes| && ptr[nodes[k]] == nodes[k + 1] && ptr[nodes[k]] in blk && ptr[nodes[k]] in ptr
    requires k + 1 < |nodes| ==> ptr[nodes[k]] == nodes[k + 1]
    ensures var next := ptr[nodes[k]];
            var r, m := NodesNext(nodes, k, x, join), BlocksNext(nodes, ptr, blk, k, x, join);
            && Listed(base, r, m) && CoalescedBut(r, m, k, k + 1) && Tiled(base, top, m) && Total(m) == Total(blk)
            && Ring(r, ptr[x := if join then ptr[next] else next][nodes[k] := x])
            && k + 1 < |r| && r[k] == nodes[k] && r[k + 1] == x && x in m && m[x] >= blk[x]
            && Live(r, m) == Live(nodes, blk) - {x}
  {
    hide Listed, Coalesced, CoalescedBut, Tiled, Ring, Live, Total;
    JoinNextRing(base, nodes, ptr, blk, k, x, join);
    JoinNextBlocks(base, top, nodes, blk, k, x, join);
    JoinNextLive(base, nodes, blk, k, x, join);
  }

  lemma JoinNextRing(base: nat, nodes: seq<nat>, ptr: map<nat, nat>, blk: map<nat, nat>, k: nat, x: nat, join: bool)
    requires Listed(base, nodes, blk) && Ring(nodes, ptr) && Between(nodes, k, x) && Links(nodes, ptr, k)
    requires join ==> k + 1 < |nodes| && ptr[nodes[k]] == nodes[k + 1] && ptr[nodes[k]] in ptr
    ensures var r, next := NodesNext(nodes, k, x, join), ptr[nodes[k]];
            && Ring(r, ptr[x := if join then ptr[next] else next][nodes[k] := x])
            && k + 1 < |r| && r[k] == nodes[k] && r[k + 1] == x
  {
    hide Ring;
    var next, s := ptr[nodes[k]], Inserted(nodes, k + 1, x);
    var q := ptr[x := next][nodes[k] := x];
    SortedInsert(nodes, k, x);
    RingInsert(nodes, ptr, k, x);
    InsertedAt(nodes, k + 1, x, k);
    InsertedAt(nodes, k + 1, x, k + 1);
    if join {
      InsertedAt(nodes, k + 1, x, k + 2);
      RingRemove(s, q, k + 1);
      assert q[next] == ptr[next];
      assert ptr[x := ptr[next]][nodes[k] := x] == q[x := q[next]];
      RemovedAt(s, k + 2, k);
      RemovedAt(s, k + 2, k + 1);
    }
  }

  lemma JoinNextBlocks(base: nat, top: nat, nodes: seq<nat>, blk: map<nat, nat>, k: nat, x: nat, join: bool)
    requires Listed(base, nodes, blk) && Coalesced(nodes, blk) && Tiled(base, top, blk)
    requires x in blk && Between(nodes, k, x)
    requires join ==> k + 1 < |nodes| && nodes[k + 1] in blk && x + blk[x] == nodes[k + 1]
    requires !join && k + 1 < |nodes| ==> x + blk[x] != nodes[k + 1]
    ensures var r, m := NodesNext(nodes, k, x, join), if join then Merged(blk, x, nodes[k + 1]) else blk;
            && Listed(base, r, m) && CoalescedBut(r, m, k, k + 1) && Tiled(base, top, m) && Total(m) == Total(blk)
            && x in m && m[x] >= blk[x]
  {
    hide Listed, Coalesced, Tiled, Total;
    var s := Inserted(nodes, k + 1, x);
    InsertNode(base, nodes, blk, k, x);
    InsertedAt(nodes, k + 1, x, k + 1);
    if k + 1 < |nodes| {
      InsertedAt(nodes, k + 1, x, k + 2);
    }
    if join {
      assert Touch(s, blk, k + 1);
      MergeNodes(base, s, blk, k + 1, k);
      MergeTiles(base, top, blk, x, nodes[k + 1]);
      MergeTotal(blk, x, nodes[k + 1]);
    } else {
      assert !Touch(s, blk, k + 1);
    }
  }

  lemma JoinNextLive(base: nat, nodes: seq<nat>, blk: map<nat, nat>, k: nat, x: nat, join: bool)
    requires Listed(base, nodes, blk) && x in blk && x !in nodes && Between(nodes, k, x)
    requires join ==> k + 1 < |nodes| && nodes[k + 1] in blk
    ensures var r, m := NodesNext(nodes, k, x, join), if join then Merged(blk, x, nodes[k + 1]) else blk;
            Live(r, m) == Live(nodes, blk) - {x}
  {
    var s := Inserted(nodes, k + 1, x);
    SortedInsert(nodes, k, x);
    InsertedMembers(nodes, k + 1, x);
    if join {
      InsertedAt(nodes, k + 1, x, k + 2);
      RemovedMembers(s, k + 2);
    }
  }

  lemma PrevIsBlock(base: nat, nodes: seq<nat>, blk: map<nat, nat>, k: nat, x: nat)
    requires Listed(base, nodes, blk) && k + 1 < |nodes| && nodes[k + 1] == x
    ensures k == 0 ==> nodes[k] == base && base < x
    ensures k > 0 ==> nodes[k] in blk
    ensures base <= nodes[k] < x
  {
  }

  /** The second half: node k swallows x behind it when they touch. */
  lemma JoinPrev(base: nat, top: nat, nodes: seq<nat>, ptr: map<nat, nat>, blk: map<nat, nat>, k: nat, x: nat)
    requires Listed(base, nodes, blk) && CoalescedBut(nodes, blk, k, k + 1) && Tiled(base, top, blk) && Ring(nodes, ptr)
    requires k >= 1 && k + 1 < |nodes| && nodes[k + 1] == x && nodes[k] in blk && nodes[k] + blk[nodes[k]] == x
    ensures x in blk && x in ptr
    ensures var r, m := Removed(nodes, k + 1), Merged(blk, nodes[k], x);
            && Listed(base, r, m) && Coalesced(r, m) && Tiled(base, top, m) && Total(m) == Total(blk)
            && Ring(r, ptr[nodes[k] := ptr[x]]) && nodes[k] in r
            && Live(r, m) == Live(nodes, blk) && Covering(r, m, x, blk[x])
  {
    hide Coalesced, Tiled, Ring, Total, Live;
    RingAt(nodes, ptr, k + 1);
    assert Touch(nodes, blk, k);
    MergeNodes(base, nodes, blk, k, k);
    AllCoalesced(Removed(nodes, k + 1), Merged(blk, nodes[k], x), k);
    MergeTiles(base, top, blk, nodes[k], x);
    MergeTotal(blk, nodes[k], x);
    RingRemove(nodes, ptr, k);
    JoinPrevLive(base, nodes, blk, k);
    RemovedAt(nodes, k + 1, k);
    assert Removed(nodes, k + 1)[k] == nodes[k];
  }

  lemma AllCoalesced(nodes: seq<nat>, blk: map<nat, nat>, k: nat)
    requires CoalescedBut(nodes, blk, k, k)
    ensures Coalesced(nodes, blk)
  {
  }

  lemma JoinPrevLive(base: nat, nodes: seq<nat>, blk: map<nat, nat>, k: nat)
    requires Listed(base, nodes, blk) && k >= 1 && k + 1 < |nodes|
    ensures Live(Removed(nodes, k + 1), Merged(blk, nodes[k], nodes[k + 1])) == Live(nodes, blk)
  {
    RemovedMembers(nodes, k + 1);
  }

  lemma NoJoinPrev(nodes: seq<nat>, blk: map<nat, nat>, k: nat, x: nat)
    requires CoalescedBut(nodes, blk, k, k + 1) && k + 1 < |nodes| && nodes[k + 1] == x && x in blk
    requires k >= 1 && nodes[k] in blk ==> nodes[k] + blk[nodes[k]] != x
    ensures Coalesced(nodes, blk) && nodes[k] in nodes && Covering(nodes, blk, x, blk[x])
  {
  }

  lemma LastNode(nodes: seq<nat>, ptr: map<nat, nat>, k: nat)
    requires Sorted(nodes) && Ring(nodes, ptr) && k < |nodes|
    ensures Links(nodes, ptr, k) && (ptr[nodes[k]] <= nodes[k] <==> k == |nodes| - 1)
  {
    assert Links(nodes, ptr, k);
  }
}
