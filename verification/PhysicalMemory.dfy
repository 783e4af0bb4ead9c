/** Physical memory: the free list of kernel/kalloc.c, the contents of pages, and the ghost
    record of who uses each page. */
module PhysicalMemory {
  import opened PageTable
  import opened TableSteps
  import Blocks

  const PGSIZE: nat := 4096

  type Byte = Blocks.Byte

  /** The free list holds each free page once and nothing else. */
  ghost predicate FreeOk(free: seq<nat>, w: Owners) {
    && (forall i, j :: 0 <= i < j < |free| ==> free[i] != free[j])
    && (forall p :: p in free ==> p in w && w[p] == Free)
    && (forall p :: p in w && w[p] == Free ==> p in free)
  }

  ghost predicate Filled(mem: map<nat, seq<Byte>>, w: Owners) {
    mem.Keys == w.Keys && forall p :: p in mem ==> |mem[p]| == PGSIZE
  }

  /** Every byte of page p is x. */
  ghost predicate AllBytes(mem: map<nat, seq<Byte>>, p: nat, x: Byte) {
    p in mem && |mem[p]| == PGSIZE && forall i :: 0 <= i < PGSIZE ==> mem[p][i] == x
  }

  /** Pages in use keep their contents. */
  ghost predicate SameBytes(mem: map<nat, seq<Byte>>, mem': map<nat, seq<Byte>>, w: Owners) {
    forall p :: p in w && p in mem && p in mem' && w[p] != Free ==> mem'[p] == mem[p]
  }

  lemma TakeFirst(free: seq<nat>, w: Owners)
    requires FreeOk(free, w) && free != []
    ensures free[0] in w && w[free[0]] == Free && FreeOk(free[1..], w[free[0] := Taken])
  {
    assert free[0] in free;
    var w' := w[free[0] := Taken];
    forall p | p in free[1..] ensures p in w' && w'[p] == Free {
      var i :| 0 <= i < |free[1..]| && free[1..][i] == p;
      assert free[i + 1] == p;
      assert p in free;
    }
    forall p | p in w' && w'[p] == Free ensures p in free[1..] {
      assert p in free;
      var i :| 0 <= i < |free| && free[i] == p;
      assert free[1..][i - 1] == p;
    }
  }

  lemma GiveBack(free: seq<nat>, w: Owners, q: nat)
    requires FreeOk(free, w) && q in w && w[q] != Free
    ensures FreeOk([q] + free, w[q := Free])
  {
    assert q !in free;
    forall p | p in [q] + free ensures p in w[q := Free] && w[q := Free][p] == Free {
      if p != q { assert p in free; }
    }
  }

  /** A page in use gets another use. */
  lemma StillFreeOk(free: seq<nat>, w: Owners, q: nat, o: Owner)
    requires FreeOk(free, w) && q in w && w[q] != Free && o != Free
    ensures FreeOk(free, w[q := o])
  {
  }

  /** Between kfree(p->tf) and the end of proc_freepagetable, a free page is still named by a
      kernel-only entry. For the trees, the pages in lent count as the kernel's. */
  ghost function View(w: Owners, lent: set<nat>): Owners {
    if lent == {} then w else map p | p in w :: if p in lent then Kernel else w[p]
  }

  ghost predicate Lent(w: Owners, lent: set<nat>) {
    forall p :: p in lent ==> p in w && w[p] == Free
  }

  lemma SameNodes(w: Owners, lent: set<nat>)
    requires Lent(w, lent)
    ensures forall p, r, level, key :: IsNode(View(w, lent), p, r, level, key) <==> IsNode(w, p, r, level, key)
    ensures forall r :: IsRoot(View(w, lent), r) <==> IsRoot(w, r)
    ensures Roots(View(w, lent)) == Roots(w)
  {
  }

  class Memory {
    var tab: Tables
    var mem: map<nat, seq<Byte>>
    var free: seq<nat>
    ghost var w: Owners

    /** Page 0 is never handed out: kalloc's null. */
    ghost predicate Pages()
      reads this
    {
      FreeOk(free, w) && Filled(mem, w) && 0 !in w
    }

    ghost predicate Valid()
      reads this
    {
      Pages() && Trees(tab, w)
    }

    /** Valid, but for the pages in lent. */
    ghost predicate ValidBut(lent: set<nat>)
      reads this
    {
      Pages() && Lent(w, lent) && Trees(tab, View(w, lent))
    }

    /** kernel/kalloc.c:67-82. 0 means that the free list is empty. */
    method Kalloc() returns (p: nat)
      requires Valid()
      modifies this
      ensures Valid() && tab == old(tab)
      ensures p == 0 <==> old(free) == []
      ensures p == 0 ==> w == old(w) && free == old(free) && mem == old(mem)
      ensures p != 0 ==> old(free) == [p] + free && p in old(w) && old(w)[p] == Free && w == old(w)[p := Taken]
      ensures SameBytes(old(mem), mem, old(w))
      ensures p != 0 ==> AllBytes(mem, p, 5)
    {
      if free == [] { return 0; }
      TakeFirst(free, w);
      p := free[0];
      Retag(tab, w, p, Taken);
      free := free[1..];
      w := w[p := Taken];
      mem := mem[p := seq(PGSIZE, _ => 5)];
    }

    /** kernel/kalloc.c:47-62; false is the panic for a page outside the managed range. Nothing
        tells kfree that a page is free already: it would be on the list twice. */
    method Kfree(p: nat) returns (ok: bool)
      requires Pages() && (p in w ==> w[p] != Free)
      modifies this
      ensures Pages() && tab == old(tab) && (ok <==> p in old(w))
      ensures ok ==> free == [p] + old(free) && w == old(w)[p := Free] && SameBytes(old(mem), mem, w)
      ensures !ok ==> free == old(free) && w == old(w) && mem == old(mem)
      ensures ok ==> AllBytes(mem, p, 1)
    {
      if p !in mem { return false; }
      GiveBack(free, w, p);
      mem := mem[p := seq(PGSIZE, _ => 1)];
      free := [p] + free;
      w := w[p := Free];
      ok := true;
    }

    /** memset(page, 0, PGSIZE) and memmove over a whole page. */
    method SetPage(p: nat, bytes: seq<Byte>)
      requires Valid() && p in w && |bytes| == PGSIZE
      modifies this`mem
      ensures Valid() && mem == old(mem)[p := bytes]
    {
      mem := mem[p := bytes];
    }
  }
}
