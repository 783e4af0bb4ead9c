/** mappages, uvmunmap and uvmclear (kernel/vm.c:146-203, 344-355). */
module Mapping {
  import opened PageTable
  import opened TableSteps
  import opened PhysicalMemory
  import opened Paging

  type Bytes = map<nat, seq<Byte>>

  // ---- adding mappings --------------------------------------------------------

  /** Pages a .. a+n-1 of root map to the n pages from `page` on; nothing else changed. */
  ghost predicate MappedRange(tab: Tables, tab': Tables, roots: set<nat>, root: nat, a: nat, n: nat, page: nat,
                              perm: nat)
    requires perm < 1024
  {
    forall r, v: nat :: r in roots && v < MAXVPN ==>
      Pte(tab', r, v) == if r == root && a <= v < a + n then Entry(page + (v - a), perm) else Pte(tab, r, v)
  }

  /** With claim, the mapped pages are now data pages of root; other pages that changed
      hands were free and are now tables of root. */
  ghost predicate MapOwned(w: Owners, w': Owners, root: nat, a: nat, n: nat, page: nat, claim: bool) {
    && w'.Keys == w.Keys
    && (forall q :: q in w && w'[q] != w[q] ==>
          || (w[q] == Free && w'[q].Node? && w'[q].root == root && 0 <= w'[q].level <= 1)
          || (claim && page <= q < page + n && w[q] == Taken))
    && (claim ==> forall q :: q in w' && page <= q < page + n ==>
          w'[q].Node? && w'[q].root == root && w'[q].level == -1 && w'[q].key == a + (q - page))
  }

  ghost predicate Mapped(tab: Tables, w: Owners, mem: Bytes, tab': Tables, w': Owners, mem': Bytes,
                         root: nat, a: nat, n: nat, page: nat, perm: nat, claim: bool)
    requires perm < 1024
  {
    && MappedRange(tab, tab', Roots(w), root, a, n, page, perm)
    && MapOwned(w, w', root, a, n, page, claim)
    && SameBytes(mem, mem', w)
  }

  lemma MapRoots(w: Owners, w': Owners, root: nat, a: nat, n: nat, page: nat, claim: bool)
    requires MapOwned(w, w', root, a, n, page, claim)
    ensures Roots(w') == Roots(w)
  {
    forall r | r in w ensures IsRoot(w', r) == IsRoot(w, r) {
    }
  }

  lemma MappedWalk(tab: Tables, w: Owners, mem: Bytes, tab1: Tables, w1: Owners, mem1: Bytes,
                   tab2: Tables, w2: Owners, mem2: Bytes, root: nat, a: nat, n: nat, page: nat, perm: nat, claim: bool)
    requires perm < 1024 && Mapped(tab, w, mem, tab1, w1, mem1, root, a, n, page, perm, claim)
    requires NewTablesOnly(tab1, w1, mem1, tab2, w2, mem2, root) && Filled(mem1, w1)
    ensures Mapped(tab, w, mem, tab2, w2, mem2, root, a, n, page, perm, claim)
  {
    MapRoots(w, w1, root, a, n, page, claim);
    forall p | p in w && p in mem && p in mem2 && w[p] != Free ensures mem2[p] == mem[p] {
      assert w1[p] != Free;
    }
  }

  /** The next page is mapped. */
  lemma MappedPut(tab: Tables, w: Owners, mem: Bytes, tab1: Tables, w1: Owners, mem1: Bytes, tab2: Tables, w2: Owners,
                  root: nat, a: nat, n: nat, page: nat, perm: nat, claim: bool, p: nat)
    requires perm < 1024 && Mapped(tab, w, mem, tab1, w1, mem1, root, a, n, page, perm, claim)
    requires a + n < MAXVPN && CanMap(w, Entry(page + n, perm), claim) && p in w1 && w1[p].Node? && w1[p].root == root
    requires OnlyChanges(tab1, tab2, Roots(w1), root, a + n, Entry(page + n, perm))
    requires w2 == MapOwners(w1, p, a + n, Entry(page + n, perm), claim)
    ensures Mapped(tab, w, mem, tab2, w2, mem1, root, a, n + 1, page, perm, claim)
  {
    EntryFields(page + n, perm);
    MapRoots(w, w1, root, a, n, page, claim);
    hide Entry, V, U, Rwx, Page, Flags, Pte;
  }

  /** One entry: kernel/vm.c:161-163. */
  lemma PutLeaf(tab: Tables, w: Owners, free: seq<nat>, p: nat, root: nat, v: nat, e: nat, claim: bool)
    requires Trees(tab, w) && FreeOk(free, w) && IsRoot(w, root) && v < MAXVPN
    requires IsNode(w, p, root, 0, v / 512) && !V(EntryAt(tab, p, Px(0, v))) && CanMap(w, e, claim)
    ensures p in tab && |tab[p]| == PTES
    ensures Trees(Put(tab, p, Px(0, v), e), MapOwners(w, p, v, e, claim)) && FreeOk(free, MapOwners(w, p, v, e, claim))
    ensures OnlyChanges(tab, Put(tab, p, Px(0, v), e), Roots(w), root, v, e)
    ensures IsRoot(MapOwners(w, p, v, e, claim), root)
  {
    assert Down(tab, w, p);
    MapTrees(tab, w, p, root, v, e, claim);
    LeafPut(tab, w, p, root, v, e, MapOwners(w, p, v, e, claim));
    if claim { StillFreeOk(free, w, Page(e), Node(w[p].root, -1, v, p)); }
  }

  /** The tables themselves stay where they are. */
  lemma PutServes(tab: Tables, w: Owners, p: nat, root: nat, v: nat, e: nat)
    requires Trees(tab, w) && IsRoot(w, root) && IsNode(w, p, root, 0, v / 512) && p in tab && |tab[p]| == PTES &&
             v < MAXVPN
    ensures forall tab0: Tables, a: nat, n: nat {:trigger Served(tab0, Put(tab, p, Px(0, v), e), root, a, n)} ::
              Served(tab0, tab, root, a, n) ==> Served(tab0, Put(tab, p, Px(0, v), e), root, a, n)
  {
    var tab' := Put(tab, p, Px(0, v), e);
    forall x: nat | x < MAXVPN
      ensures LeafTable(tab', root, x) == LeafTable(tab, root, x) && MidTable(tab', root, x) == MidTable(tab, root, x)
    {
      MidTableIs(tab, w, root, x);
    }
    hide LeafTable, MidTable, Touches;
  }

  ghost predicate CanMapAll(w: Owners, page: nat, n: nat, perm: nat, claim: bool)
    requires perm < 1024
  {
    forall q: nat :: page <= q < page + n ==> CanMap(w, Entry(q, perm), claim)
  }

  lemma StillCanMap(w: Owners, w': Owners, root: nat, a: nat, n: nat, page: nat, perm: nat, claim: bool)
    requires perm < 1024 && MapOwned(w, w', root, a, n, page, claim) && CanMap(w, Entry(page + n, perm), claim)
    ensures CanMap(w', Entry(page + n, perm), claim)
  {
    EntryFields(page + n, perm);
  }

  /** The n pages from a on are below MAXVA and have no valid entry. */
  ghost predicate Unmapped(tab: Tables, root: nat, a: nat, n: nat) {
    (n > 0 ==> a + n <= MAXVPN) && forall v: nat :: a <= v < a + n ==> !V(Pte(tab, root, v))
  }

  /** PGROUNDDOWN(va + size - 1), in 64 bits, as a page number. */
  function Last(va: nat, size: nat): nat { ((va + size + U64 - 1) % U64) / PGSIZE }

  lemma LastIs(va: nat, size: nat)
    ensures 0 < size && va + size <= U64 ==> Last(va, size) == (va + size - 1) / PGSIZE
    ensures Last(0, 0) == (U64 - 1) / PGSIZE
  {
    if 0 < size && va + size <= U64 {
      assert va + size + U64 - 1 == U64 + (va + size - 1);
    }
  }

  /** The loops of mappages and uvmunmap go up from the page of va and stop after the page
      Last(va, size). When that page is behind the first one, only MAXVA ends them. */
  ghost function Reach(va: nat, size: nat): nat {
    var a, last := va / PGSIZE, Last(va, size);
    if a <= last then last - a + 1 else if a < MAXVPN then MAXVPN - a else 0
  }

  /** kernel/vm.c:150-170. On success exactly the requested entries changed, and they were
      free before; when memory runs out, the entries of the first `done` pages have been added
      and the rest of the map is as it was. The tables added are those that were missing. */
  method MapPages(m: Memory, root: nat, va: nat, size: nat, page: nat, perm: nat, ghost claim: bool)
    returns (r: Result, ghost done: nat)
    requires m.Valid() && IsRoot(m.w, root) && perm < 1024 && va < U64 && size < U64
    requires CanMapAll(m.w, page, Reach(va, size), perm, claim)
    modifies m
    ensures m.Valid() && IsRoot(m.w, root)
    ensures Mapped(old(m.tab), old(m.w), old(m.mem), m.tab, m.w, m.mem, root, va / PGSIZE, done, page, perm, claim)
    ensures done <= Reach(va, size)
    ensures r.Ok? <==> va / PGSIZE <= Last(va, size) && done == Reach(va, size)
    ensures r.NoMemory? ==> m.free == []
    ensures Unmapped(old(m.tab), root, va / PGSIZE, done)
    ensures r.Panic? ==> !Unmapped(old(m.tab), root, va / PGSIZE + done, 1)
    ensures r.NoMemory? ==> Unmapped(old(m.tab), root, va / PGSIZE + done, 1)
    ensures r.NoMemory? ==> |old(m.free)| < TablesFor(old(m.tab), root, va / PGSIZE, done + 1)
    ensures r.Ok? ==> |old(m.free)| == |m.free| + TablesFor(old(m.tab), root, va / PGSIZE, done)
    ensures r.Ok? ==> Served(old(m.tab), m.tab, root, va / PGSIZE, done)
  {
    hide Trees, FreeOk, Filled, Entry, MappedRange, MapOwned, SameBytes, NewTablesOnly, Pte, LeafTable, Roots, CanMap,
         Served, Lacking, NewFor, Last, MidTable, EntryAt, Px, MapOwners;
    var a, pa := va / PGSIZE, page;
    var last := Last(va, size);
    done := 0;
    MappedNothing(m.tab, m.w, m.mem, root, a, page, perm, claim);
    ServedNone(m.tab, root, a);
    while true
      invariant m.Valid() && IsRoot(m.w, root)
      invariant a == va / PGSIZE + done && pa == page + done && (last < va / PGSIZE || a <= last)
      invariant Mapped(old(m.tab), old(m.w), old(m.mem), m.tab, m.w, m.mem, root, va / PGSIZE, done, page, perm, claim)
      invariant Unmapped(old(m.tab), root, va / PGSIZE, done)
      invariant Served(old(m.tab), m.tab, root, va / PGSIZE, done)
      invariant |old(m.free)| == |m.free| + TablesFor(old(m.tab), root, va / PGSIZE, done)
      decreases MAXVPN - a
    {
      label before:
      var s := Walk(m, root, a, true);
      if s.Panicked? { return Panic, done; }
      NextLacks(old(m.tab), old@before(m.tab), root, va / PGSIZE, done);
      MappedWalk(old(m.tab), old(m.w), old(m.mem), old@before(m.tab), old@before(m.w), old@before(m.mem),
                 m.tab, m.w, m.mem, root, va / PGSIZE, done, page, perm, claim);
      WalkedEntry(old(m.tab), old(m.w), old@before(m.w), old@before(m.tab), old@before(m.mem), m.tab, m.w, m.mem,
                  old(m.mem), root, va / PGSIZE, done, page, perm, claim, s);
      if s.Missing? { return NoMemory, done; }
      var e := EntryAt(m.tab, s.page, Px(0, a));
      if V(e) { return Panic, done; }
      ServedMore(old(m.tab), old@before(m.tab), m.tab, root, va / PGSIZE, done);
      StillCanMap(old(m.w), m.w, root, va / PGSIZE, done, page, perm, claim);
      PutLeaf(m.tab, m.w, m.free, s.page, root, a, Entry(pa, perm), claim);
      PutServes(m.tab, m.w, s.page, root, a, Entry(pa, perm));
      label put:
      m.tab := Put(m.tab, s.page, Px(0, a), Entry(pa, perm));
      FilledKeys(m.mem, m.w, s.page, a, Entry(pa, perm), claim);
      m.w := MapOwners(m.w, s.page, a, Entry(pa, perm), claim);
      MappedPut(old(m.tab), old(m.w), old(m.mem), old@put(m.tab), old@put(m.w), m.mem, m.tab, m.w,
                root, va / PGSIZE, done, page, perm, claim, s.page);
      done := done + 1;
      if a == last { return Ok, done; }
      a, pa := a + 1, pa + 1;
    }
  }

  lemma FilledKeys(mem: Bytes, w: Owners, p: nat, v: nat, e: nat, claim: bool)
    requires Filled(mem, w) && 0 !in w && p in w && w[p].Node? && CanMap(w, e, claim)
    ensures Filled(mem, MapOwners(w, p, v, e, claim)) && 0 !in MapOwners(w, p, v, e, claim)
  {
  }

  lemma MappedNothing(tab: Tables, w: Owners, mem: Bytes, root: nat, a: nat, page: nat, perm: nat, claim: bool)
    requires perm < 1024
    ensures Mapped(tab, w, mem, tab, w, mem, root, a, 0, page, perm, claim)
  {
  }

  /** The slot that walk finds holds what the flat map held before mappages began. */
  lemma WalkedEntry(tab: Tables, w: Owners, w1: Owners, tab1: Tables, mem1: Bytes, tab2: Tables, w2: Owners,
                    mem2: Bytes, mem: Bytes, root: nat, a: nat, n: nat, page: nat, perm: nat, claim: bool, s: Walked)
    requires perm < 1024 && a + n < MAXVPN && IsRoot(w1, root)
    requires Mapped(tab, w, mem, tab1, w1, mem1, root, a, n, page, perm, claim)
    requires NewTablesOnly(tab1, w1, mem1, tab2, w2, mem2, root)
    requires s.Slot? ==> LeafTable(tab2, root, a + n) == PageTable.Some(s.page)
    requires s.Missing? ==> Pte(tab2, root, a + n) == 0
    ensures IsRoot(w2, root)
    ensures s.Missing? ==> Unmapped(tab, root, a + n, 1)
    ensures s.Slot? ==> (Unmapped(tab, root, a + n, 1) <==> !V(EntryAt(tab2, s.page, Px(0, a + n))))
    ensures s.Slot? ==> EntryAt(tab2, s.page, Px(0, a + n)) == Pte(tab, root, a + n)
  {
    MapRoots(w, w1, root, a, n, page, claim);
    assert root in Roots(w1);
    assert Pte(tab2, root, a + n) == Pte(tab1, root, a + n);
  }

  // ---- removing mappings --------------------------------------------------------

  ghost predicate UnmappedRange(tab: Tables, tab': Tables, roots: set<nat>, root: nat, a: nat, n: nat) {
    forall r, v: nat :: r in roots && v < MAXVPN ==>
      Pte(tab', r, v) == if r == root && a <= v < a + n then 0 else Pte(tab, r, v)
  }

  ghost predicate DataOf(o: Owner, root: nat, a: nat, n: nat) {
    o.Node? && o.root == root && o.level == -1 && a <= o.key < a + n
  }

  /** Exactly the data pages that were mapped there changed hands, to o. */
  ghost predicate UnmapOwned(w: Owners, w': Owners, root: nat, a: nat, n: nat, o: Owner) {
    w'.Keys == w.Keys && forall q :: q in w ==> w'[q] == if DataOf(w[q], root, a, n) then o else w[q]
  }

  /** Going up from page a, to last if last is not behind a, for as long as pages are mapped,
      they are data pages of this tree: pages that uvmunmap may give to kfree. */
  ghost predicate FreeableRange(tab: Tables, w: Owners, root: nat, a: nat, last: nat) {
    forall v: nat ::
      a <= v < MAXVPN && (last < a || v <= last) && V(Pte(tab, root, v)) && AllMapped(tab, root, a, v - a) ==>
      IsNode(w, Page(Pte(tab, root, v)), root, -1, v)
  }

  ghost predicate Unmapping(tab: Tables, w: Owners, mem: Bytes, tab': Tables, w': Owners, mem': Bytes,
                            root: nat, a: nat, n: nat, o: Owner) {
    && UnmappedRange(tab, tab', Roots(w), root, a, n)
    && UnmapOwned(w, w', root, a, n, o)
    && SameBytes(mem, mem', w')
  }

  ghost predicate AllMapped(tab: Tables, root: nat, a: nat, n: nat) {
    (n > 0 ==> a + n <= MAXVPN) && forall v: nat :: a <= v < a + n ==> V(Pte(tab, root, v))
  }

  lemma UnmapRoots(w: Owners, w': Owners, root: nat, a: nat, n: nat, o: Owner)
    requires UnmapOwned(w, w', root, a, n, o) && !o.Node?
    ensures Roots(w') == Roots(w)
  {
    forall r | r in w ensures IsRoot(w', r) == IsRoot(w, r) {
    }
  }

  lemma UnmappingNothing(tab: Tables, w: Owners, mem: Bytes, root: nat, a: nat, o: Owner)
    ensures Unmapping(tab, w, mem, tab, w, mem, root, a, 0, o)
  {
  }

  /** The entry that walk finds, and the page it names. */
  lemma FoundLeaf(tab: Tables, w: Owners, root: nat, v: nat, p: nat)
    requires Trees(tab, w) && IsRoot(w, root) && v < MAXVPN && LeafTable(tab, root, v) == PageTable.Some(p)
    ensures IsNode(w, p, root, 0, v / 512) && p in tab && |tab[p]| == PTES
    ensures EntryAt(tab, p, Px(0, v)) == Pte(tab, root, v)
    ensures V(Pte(tab, root, v)) ==> Rwx(Pte(tab, root, v)) && Flags(Pte(tab, root, v)) != 1
  {
    LeafTableIs(tab, w, root, v);
    assert Down(tab, w, p);
    var e := Pte(tab, root, v);
    if V(e) {
      assert EntryOk(w, p, Px(0, v), e);
      if Flags(e) == 1 { FieldsOf(Page(e), 1); }
    }
  }

  /** One entry removed: kernel/vm.c:193-197. */
  lemma ClearLeaf(tab: Tables, w: Owners, p: nat, root: nat, v: nat, o: Owner)
    requires Trees(tab, w) && IsRoot(w, root) && v < MAXVPN && IsNode(w, p, root, 0, v / 512)
    requires LeafTable(tab, root, v) == PageTable.Some(p) && V(Pte(tab, root, v)) && !o.Node? && o != Kernel
    ensures p in tab && |tab[p]| == PTES
    ensures Trees(Put(tab, p, Px(0, v), 0), UnmapOwners(w, root, v, Page(Pte(tab, root, v)), o))
    ensures OnlyChanges(tab, Put(tab, p, Px(0, v), 0), Roots(w), root, v, 0)
    ensures UnmapOwned(w, UnmapOwners(w, root, v, Page(Pte(tab, root, v)), o), root, v, 1, o)
  {
    FoundLeaf(tab, w, root, v, p);
    UnmapTrees(tab, w, p, root, v, o);
    ClearOwned(tab, w, root, v, o);
    hide Pte, Page, V, Rwx, Flags;
    LeafPut(tab, w, p, root, v, 0, UnmapOwners(w, root, v, Page(Pte(tab, root, v)), o));
  }

  lemma ClearOwned(tab: Tables, w: Owners, root: nat, v: nat, o: Owner)
    requires Trees(tab, w) && IsRoot(w, root) && v < MAXVPN && V(Pte(tab, root, v))
    ensures UnmapOwned(w, UnmapOwners(w, root, v, Page(Pte(tab, root, v)), o), root, v, 1, o)
  {
    forall x | x in w && DataOf(w[x], root, v, 1) ensures x == Page(Pte(tab, root, v)) {
      DataPageMapped(tab, w, root, v, x);
    }
  }

  lemma UnmappingStep(tab: Tables, w: Owners, mem: Bytes, tab1: Tables, w1: Owners, mem1: Bytes,
                      tab2: Tables, w2: Owners, mem2: Bytes, root: nat, a: nat, n: nat, o: Owner)
    requires Unmapping(tab, w, mem, tab1, w1, mem1, root, a, n, o) && a + n < MAXVPN && !o.Node?
    requires Filled(mem1, w1)
    requires OnlyChanges(tab1, tab2, Roots(w1), root, a + n, 0)
    requires UnmapOwned(w1, w2, root, a + n, 1, o) && SameBytes(mem1, mem2, w2)
    ensures Unmapping(tab, w, mem, tab2, w2, mem2, root, a, n + 1, o)
  {
    UnmapRoots(w, w1, root, a, n, o);
    assert UnmappedRange(tab, tab2, Roots(w), root, a, n + 1) by {
      hide Pte;
    }
    forall q | q in w ensures w2[q] == if DataOf(w[q], root, a, n + 1) then o else w[q] {
      assert w1[q] == if DataOf(w[q], root, a, n) then o else w[q];
    }
    forall p | p in w2 && p in mem && p in mem2 && w2[p] != Free ensures mem2[p] == mem[p] {
      assert w1[p] != Free;
    }
  }

  lemma StillFreeable(tab: Tables, w: Owners, mem: Bytes, tab1: Tables, w1: Owners, mem1: Bytes,
                      root: nat, a: nat, n: nat, last: nat, o: Owner)
    requires Unmapping(tab, w, mem, tab1, w1, mem1, root, a, n, o) && IsRoot(w, root)
    requires FreeableRange(tab, w, root, a, last) && AllMapped(tab, root, a, n)
    requires a + n < MAXVPN && (last < a || a + n <= last) && V(Pte(tab1, root, a + n))
    ensures Pte(tab, root, a + n) == Pte(tab1, root, a + n)
    ensures IsNode(w1, Page(Pte(tab1, root, a + n)), root, -1, a + n)
  {
    assert root in Roots(w);
    var q := Page(Pte(tab1, root, a + n));
    assert IsNode(w, q, root, -1, a + n);
    assert w1[q] == w[q];
  }

  /** The entry that walk finds, and what its removal does, when lent pages are still mapped. */
  lemma ClearLeafBut(tab: Tables, w: Owners, lent: set<nat>, root: nat, v: nat, p: nat, o: Owner)
    requires Lent(w, lent) && Trees(tab, View(w, lent)) && IsRoot(w, root) && v < MAXVPN
    requires LeafTable(tab, root, v) == PageTable.Some(p) && !o.Node? && o != Kernel
    ensures IsNode(w, p, root, 0, v / 512) && p in tab && |tab[p]| == PTES
    ensures EntryAt(tab, p, Px(0, v)) == Pte(tab, root, v)
    ensures V(Pte(tab, root, v)) ==> Rwx(Pte(tab, root, v)) && Flags(Pte(tab, root, v)) != 1
    ensures V(Pte(tab, root, v)) ==>
              var w' := UnmapOwners(w, root, v, Page(Pte(tab, root, v)), o);
              && Trees(Put(tab, p, Px(0, v), 0), View(w', lent)) && Lent(w', lent)
              && OnlyChanges(tab, Put(tab, p, Px(0, v), 0), Roots(w), root, v, 0)
              && UnmapOwned(w, w', root, v, 1, o)
  {
    SameNodes(w, lent);
    FoundLeaf(tab, View(w, lent), root, v, p);
    if V(Pte(tab, root, v)) {
      ClearLeaf(tab, View(w, lent), p, root, v, o);
      ViewUnmapped(w, lent, root, v, Page(Pte(tab, root, v)), o);
    }
    hide Trees, Pte, V, Page, Rwx, Flags, Roots, EntryAt, LeafTable, OnlyChanges, UnmapOwners, View;
  }

  lemma ViewUnmapped(w: Owners, lent: set<nat>, root: nat, v: nat, q: nat, o: Owner)
    requires Lent(w, lent) && !o.Node? &&
             UnmapOwned(View(w, lent), UnmapOwners(View(w, lent), root, v, q, o), root, v, 1, o)
    ensures Lent(UnmapOwners(w, root, v, q, o), lent)
    ensures View(UnmapOwners(w, root, v, q, o), lent) == UnmapOwners(View(w, lent), root, v, q, o)
    ensures UnmapOwned(w, UnmapOwners(w, root, v, q, o), root, v, 1, o)
  {
    var w' := UnmapOwners(w, root, v, q, o);
    assert IsNode(View(w, lent), q, root, -1, v) <==> IsNode(w, q, root, -1, v);
    forall x | x in w ensures w'[x] == if DataOf(w[x], root, v, 1) then o else w[x] {
      assert x in View(w, lent);
    }
  }

  /** With size 0 the last page is the one before va's: the first page itself when va is not
      page-aligned, and behind it, or past MAXVA, when it is. */
  lemma EmptyRange(va: nat)
    requires va < U64
    ensures va % PGSIZE != 0 ==> Last(va, 0) == va / PGSIZE
    ensures va % PGSIZE == 0 ==> Last(va, 0) < va / PGSIZE || Last(va, 0) >= MAXVPN
  {
    if va == 0 {
      LastIs(0, 0);
    } else {
      assert va + 0 + U64 - 1 == U64 + (va - 1);
      assert Last(va, 0) == (va - 1) / PGSIZE;
    }
  }

  /** kernel/vm.c:176-203. uvmunmap goes up from the page of va to Last(va, size). It returns
      exactly when that page is not behind the first one and every page on the way is mapped;
      anything else is a panic, in particular size 0 at a page-aligned address. When it
      returns, exactly these entries are gone, and exactly these data pages changed hands. */
  method UvmUnmap(m: Memory, root: nat, va: nat, size: nat, doFree: bool,
                  ghost lent: set<nat> := {}) returns (r: Result)
    requires m.ValidBut(lent) && IsRoot(m.w, root) && va < U64 && size < U64
    requires doFree ==> FreeableRange(m.tab, m.w, root, va / PGSIZE, Last(va, size))
    modifies m
    ensures m.ValidBut(lent) && IsRoot(m.w, root) && !r.NoMemory?
    ensures r.Ok? <==> (var a, last := va / PGSIZE, Last(va, size);
                        a <= last && AllMapped(old(m.tab), root, a, last - a + 1))
    ensures size == 0 && va % PGSIZE == 0 ==> r.Panic?
    ensures r.Ok? ==> va / PGSIZE <= Last(va, size)
    ensures r.Ok? ==> Unmapping(old(m.tab), old(m.w), old(m.mem), m.tab, m.w, m.mem, root, va / PGSIZE,
                                Last(va, size) - va / PGSIZE + 1, if doFree then Free else Taken)
  {
    hide Trees, FreeOk, Filled, UnmappedRange, UnmapOwned, SameBytes, Pte, LeafTable, Roots, FreeableRange,
         NewTablesOnly, Last, Lent, View;
    EmptyRange(va);
    ghost var o := if doFree then Free else Taken;
    ghost var n: nat := 0;
    var a := va / PGSIZE;
    var last := Last(va, size);
    UnmappingNothing(m.tab, m.w, m.mem, root, a, o);
    while true
      invariant m.ValidBut(lent) && IsRoot(m.w, root)
      invariant a == va / PGSIZE + n && (last < va / PGSIZE || a <= last)
      invariant Unmapping(old(m.tab), old(m.w), old(m.mem), m.tab, m.w, m.mem, root, va / PGSIZE, n, o)
      invariant AllMapped(old(m.tab), root, va / PGSIZE, n)
      decreases MAXVPN - a
    {
      hide Unmapping, IsRoot, AllMapped;
      SameEntry(old(m.tab), old(m.w), old(m.mem), m.tab, m.w, m.mem, root, va / PGSIZE, n, o);
      var ok := UnmapPage(m, root, a, doFree, lent, old(m.tab), old(m.w), old(m.mem), va / PGSIZE, n, last);
      MappedNext(old(m.tab), root, va / PGSIZE, n);
      if !ok {
        if va / PGSIZE <= last { MappedFewer(old(m.tab), root, va / PGSIZE, n + 1, last - va / PGSIZE + 1); }
        return Panic;
      }
      n := n + 1;
      if a == last { return Ok; }
      a := a + 1;
    }
  }

  /** One more page is mapped if it has a valid entry. */
  lemma MappedNext(tab: Tables, root: nat, a: nat, n: nat)
    requires AllMapped(tab, root, a, n)
    ensures AllMapped(tab, root, a, n + 1) <==> a + n < MAXVPN && V(Pte(tab, root, a + n))
  {
    hide Pte;
  }

  lemma MappedFewer(tab: Tables, root: nat, a: nat, k: nat, n: nat)
    requires !AllMapped(tab, root, a, k) && k <= n
    ensures !AllMapped(tab, root, a, n)
  {
    hide Pte;
  }

  /** One turn of uvmunmap's loop (kernel/vm.c:186-201): false is one of its panics. */
  method UnmapPage(m: Memory, root: nat, v: nat, doFree: bool, ghost lent: set<nat>, ghost tab: Tables, ghost w: Owners,
                   ghost mem: Bytes, ghost a: nat, ghost n: nat, ghost last: nat)
    returns (ok: bool)
    requires m.ValidBut(lent) && IsRoot(m.w, root) && IsRoot(w, root) && v == a + n && (last < a || v <= last)
    requires Unmapping(tab, w, mem, m.tab, m.w, m.mem, root, a, n, if doFree then Free else Taken)
    requires AllMapped(tab, root, a, n) && (v < MAXVPN ==> Pte(m.tab, root, v) == Pte(tab, root, v))
    requires doFree ==> FreeableRange(tab, w, root, a, last)
    modifies m
    ensures m.ValidBut(lent) && IsRoot(m.w, root)
    ensures ok <==> v < MAXVPN && V(Pte(tab, root, v))
    ensures ok ==> Unmapping(tab, w, mem, m.tab, m.w, m.mem, root, a, n + 1, if doFree then Free else Taken)
  {
    hide Trees, FreeOk, Filled, Unmapping, UnmapOwned, SameBytes, Pte, LeafTable, Roots, FreeableRange, NewTablesOnly,
         AllMapped, Lent, View, IsRoot;
    ghost var o := if doFree then Free else Taken;
    var s := Walk(m, root, v, false, lent);
    if !s.Slot? { return false; }
    ClearLeafBut(m.tab, m.w, lent, root, v, s.page, o);
    var e := EntryAt(m.tab, s.page, Px(0, v));
    if !V(e) || Flags(e) == 1 { return false; }
    ghost var w' := UnmapOwners(m.w, root, v, Page(e), o);
    if doFree {
      StillFreeable(tab, w, mem, m.tab, m.w, m.mem, root, a, n, last, o);
      FreeLeaf(m, Page(e), root, v);
    } else {
      KeepPages(m.free, m.mem, m.w, root, v, Page(e));
      m.w := w';
    }
    m.tab := Put(m.tab, s.page, Px(0, v), 0);
    UnmappingStep(tab, w, mem, old(m.tab), old(m.w), old(m.mem), m.tab, m.w, m.mem, root, a, n, o);
    UnmapKeepsRoot(old(m.w), m.w, root, v, o);
    ok := true;
  }

  method FreeLeaf(m: Memory, q: nat, ghost root: nat, ghost v: nat)
    requires m.Pages() && IsNode(m.w, q, root, -1, v)
    modifies m
    ensures m.Pages() && m.tab == old(m.tab) && m.w == UnmapOwners(old(m.w), root, v, q, Free)
    ensures SameBytes(old(m.mem), m.mem, m.w)
  {
    var freed := m.Kfree(q);
  }

  lemma KeepPages(free: seq<nat>, mem: Bytes, w: Owners, root: nat, v: nat, q: nat)
    requires FreeOk(free, w) && Filled(mem, w) && 0 !in w
    ensures var w' := UnmapOwners(w, root, v, q, Taken);
            FreeOk(free, w') && Filled(mem, w') && 0 !in w' && SameBytes(mem, mem, w')
  {
    if IsNode(w, q, root, -1, v) { StillFreeOk(free, w, q, Taken); }
  }

  lemma UnmapKeepsRoot(w: Owners, w': Owners, root: nat, v: nat, o: Owner)
    requires IsRoot(w, root) && UnmapOwned(w, w', root, v, 1, o)
    ensures IsRoot(w', root)
  {
  }

  /** Before its turn an entry is as it was when uvmunmap began. */
  lemma SameEntry(tab: Tables, w: Owners, mem: Bytes, tab1: Tables, w1: Owners, mem1: Bytes, root: nat, a: nat, n: nat,
                  o: Owner)
    requires Unmapping(tab, w, mem, tab1, w1, mem1, root, a, n, o) && IsRoot(w, root)
    ensures a + n < MAXVPN ==> Pte(tab1, root, a + n) == Pte(tab, root, a + n)
  {
    assert root in Roots(w);
  }

  // ---- hiding a page from user code ------------------------------------------------

  /** kernel/vm.c:346-355: the page becomes inaccessible to user code and keeps its contents
      and other flags; nothing else changes. A panic means that no table serves the page. */
  method UvmClear(m: Memory, root: nat, v: nat) returns (r: Result)
    requires m.Valid() && IsRoot(m.w, root)
    modifies m
    ensures m.Valid() && m.w == old(m.w) && m.free == old(m.free) && m.mem == old(m.mem)
    ensures r.Ok? <==> v < MAXVPN && LeafTable(old(m.tab), root, v).Some?
    ensures r.Ok? ==> OnlyChanges(old(m.tab), m.tab, Roots(m.w), root, v, Hidden(Pte(old(m.tab), root, v)))
    ensures !r.Ok? ==> m.tab == old(m.tab)
  {
    hide Trees, FreeOk, Filled, Pte, Roots, OnlyChanges, Hidden;
    var s := Walk(m, root, v, false);
    if !s.Slot? { return Panic; }
    FoundLeaf(m.tab, m.w, root, v, s.page);
    HideLeaf(m.tab, m.w, s.page, root, v);
    m.tab := Put(m.tab, s.page, Px(0, v), Hidden(EntryAt(m.tab, s.page, Px(0, v))));
    r := Ok;
  }

  lemma HideLeaf(tab: Tables, w: Owners, p: nat, root: nat, v: nat)
    requires Trees(tab, w) && IsRoot(w, root) && v < MAXVPN && IsNode(w, p, root, 0, v / 512) && p in tab &&
             |tab[p]| == PTES
    ensures var e := Hidden(EntryAt(tab, p, Px(0, v)));
            Trees(Put(tab, p, Px(0, v), e), w) && OnlyChanges(tab, Put(tab, p, Px(0, v), e), Roots(w), root, v, e)
  {
    HideTrees(tab, w, p, root, v);
    LeafPut(tab, w, p, root, v, Hidden(EntryAt(tab, p, Px(0, v))), w);
  }
}
