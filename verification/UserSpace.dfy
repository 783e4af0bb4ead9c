/** Growing, shrinking and copying user memory (kernel/vm.c:233-277, 308-342). */
module UserSpace {
  import Blocks
  import opened PageTable
  import opened TableSteps
  import opened PhysicalMemory
  import opened Paging
  import opened Mapping

  function ZeroPage(): (s: seq<Byte>)
    ensures |s| == PGSIZE
  {
    seq(PGSIZE, _ => 0)
  }

  /** PTE_V | PTE_R | PTE_W | PTE_X | PTE_U */
  const USER: nat := 31

  function RoundUp(sz: nat): nat { (sz + PGSIZE - 1) / PGSIZE }

  /** How many pages size hi has beyond size lo. */
  function PagesBetween(lo: nat, hi: nat): nat {
    if RoundUp(lo) < RoundUp(hi) then RoundUp(hi) - RoundUp(lo) else 0
  }

  datatype Want = Want(flags: nat, bytes: seq<Byte>)

  ghost predicate Wanted(want: Want) {
    want.flags < 1024 && V(want.flags) && Rwx(want.flags) && |want.bytes| == PGSIZE
  }

  /** Page v of root is a data page of its own with these flags and contents. */
  ghost predicate NewPage(tab: Tables, w: Owners, mem: Bytes, root: nat, v: nat, want: Want) {
    var e := Pte(tab, root, v);
    V(e) && Flags(e) == want.flags && IsNode(w, Page(e), root, -1, v) && Page(e) in mem && mem[Page(e)] == want.bytes
  }

  ghost predicate NewPageAt(tab: Tables, w: Owners, mem: Bytes, root: nat, a: nat, want: seq<Want>, v: nat) {
    a <= v < a + |want| ==> NewPage(tab, w, mem, root, v, want[v - a])
  }

  ghost predicate OthersSame(tab: Tables, tab': Tables, roots: set<nat>, root: nat, a: nat, n: nat) {
    forall r, v: nat :: r in roots && v < MAXVPN && !(r == root && a <= v < a + n) ==> Pte(tab', r, v) == Pte(tab, r, v)
  }

  ghost predicate AddOwned(w: Owners, w': Owners, root: nat, a: nat, n: nat) {
    && w'.Keys == w.Keys
    && forall q :: q in w && w'[q] != w[q] ==>
         w[q] == Free && w'[q].Node? && w'[q].root == root && (0 <= w'[q].level <= 1 || DataOf(w'[q], root, a, n))
  }

  /** From one state of memory to the next: root gained exactly the pages a, a+1, ... with the
      wanted flags and contents, each on a page that was free; no other translation changed,
      pages in use kept their contents, and the other pages taken are tables of root. */
  ghost predicate Added(tab: Tables, w: Owners, mem: Bytes, tab': Tables, w': Owners, mem': Bytes,
                        root: nat, a: nat, want: seq<Want>) {
    && OthersSame(tab, tab', Roots(w), root, a, |want|)
    && AddOwned(w, w', root, a, |want|)
    && SameBytes(mem, mem', w)
    && (|want| > 0 ==> a + |want| <= MAXVPN)
    && forall v: nat :: NewPageAt(tab', w', mem', root, a, want, v)
  }

  lemma AddedRoots(w: Owners, w': Owners, root: nat, a: nat, n: nat)
    requires AddOwned(w, w', root, a, n)
    ensures Roots(w') == Roots(w)
  {
    forall r | r in w ensures IsRoot(w', r) == IsRoot(w, r) {
    }
  }

  lemma BytesKept(mem: Bytes, w: Owners, mem1: Bytes, w1: Owners, mem2: Bytes, root: nat, a: nat, n: nat)
    requires SameBytes(mem, mem1, w) && SameBytes(mem1, mem2, w1) && Filled(mem1, w1) && AddOwned(w, w1, root, a, n)
    ensures SameBytes(mem, mem2, w)
  {
    forall p | p in w && p in mem && p in mem2 && w[p] != Free ensures mem2[p] == mem[p] {
      assert w1[p] == w[p];
    }
  }

  /** A page of the address space stays as it is while others are added. */
  lemma KeptPage(tab: Tables, w: Owners, mem: Bytes, tab': Tables, w': Owners, mem': Bytes, root: nat, v: nat,
                 want: Want)
    requires NewPage(tab, w, mem, root, v, want) && Pte(tab', root, v) == Pte(tab, root, v)
    requires w'.Keys == w.Keys && Filled(mem', w') && SameBytes(mem, mem', w)
    requires forall q :: q in w && w'[q] != w[q] ==> w[q] == Free
    ensures NewPage(tab', w', mem', root, v, want)
  {
    var q := Page(Pte(tab, root, v));
    assert w[q] != Free && w'[q] == w[q];
  }

  lemma AddedNothing(tab: Tables, w: Owners, mem: Bytes, root: nat, a: nat)
    ensures Added(tab, w, mem, tab, w, mem, root, a, [])
  {
  }

  /** One more page. */
  lemma AddedOne(tab: Tables, w: Owners, mem: Bytes, tab1: Tables, w1: Owners, mem1: Bytes,
                 tab2: Tables, w2: Owners, mem2: Bytes, root: nat, a: nat, want: seq<Want>, x: Want)
    requires Added(tab, w, mem, tab1, w1, mem1, root, a, want) && Filled(mem1, w1) && IsRoot(w, root)
    requires Added(tab1, w1, mem1, tab2, w2, mem2, root, a + |want|, [x]) && Filled(mem2, w2)
    ensures Added(tab, w, mem, tab2, w2, mem2, root, a, want + [x])
  {
    var n := |want|;
    AddedRoots(w, w1, root, a, n);
    assert root in Roots(w1);
    BytesKept(mem, w, mem1, w1, mem2, root, a, n);
    forall v: nat ensures NewPageAt(tab2, w2, mem2, root, a, want + [x], v) {
      assert NewPageAt(tab1, w1, mem1, root, a, want, v) && NewPageAt(tab2, w2, mem2, root, a + n, [x], v);
      if a <= v < a + n {
        KeptPage(tab1, w1, mem1, tab2, w2, mem2, root, v, want[v - a]);
      }
    }
    hide NewPage, NewPageAt, Pte;
  }

  lemma AddedThenTables(tab: Tables, w: Owners, mem: Bytes, tab1: Tables, w1: Owners, mem1: Bytes,
                        tab2: Tables, w2: Owners, mem2: Bytes, root: nat, a: nat, want: seq<Want>)
    requires Added(tab, w, mem, tab1, w1, mem1, root, a, want) && Filled(mem1, w1) && IsRoot(w, root)
    requires NewTablesOnly(tab1, w1, mem1, tab2, w2, mem2, root) && Filled(mem2, w2)
    ensures Added(tab, w, mem, tab2, w2, mem2, root, a, want)
  {
    var n := |want|;
    AddedRoots(w, w1, root, a, n);
    assert root in Roots(w1);
    BytesKept(mem, w, mem1, w1, mem2, root, a, n);
    forall v: nat ensures NewPageAt(tab2, w2, mem2, root, a, want, v) {
      assert NewPageAt(tab1, w1, mem1, root, a, want, v);
      if a <= v < a + n {
        KeptPage(tab1, w1, mem1, tab2, w2, mem2, root, v, want[v - a]);
      }
    }
    hide NewPage, NewPageAt, Pte;
  }

  /** Taking the added pages away again leaves only new tables behind. */
  lemma AddedUndone(tab: Tables, w: Owners, mem: Bytes, tab1: Tables, w1: Owners, mem1: Bytes,
                    tab2: Tables, w2: Owners, mem2: Bytes, root: nat, a: nat, want: seq<Want>)
    requires Trees(tab, w) && IsRoot(w, root) && Unmapped(tab, root, a, |want|)
    requires Added(tab, w, mem, tab1, w1, mem1, root, a, want) && Filled(mem1, w1)
    requires Unmapping(tab1, w1, mem1, tab2, w2, mem2, root, a, |want|, Free)
    ensures NewTablesOnly(tab, w, mem, tab2, w2, mem2, root)
  {
    var n := |want|;
    AddedRoots(w, w1, root, a, n);
    forall q | q in w ensures !DataOf(w[q], root, a, n) {
      if DataOf(w[q], root, a, n) { DataPageMapped(tab, w, root, w[q].key, q); }
    }
    assert Grew(w, w2, root, 0);
    forall p | p in w && p in mem && p in mem2 && w[p] != Free ensures mem2[p] == mem[p] {
      assert w1[p] == w[p] && w2[p] == w[p];
    }
    forall r, v: nat | r in Roots(w) && v < MAXVPN ensures Pte(tab2, r, v) == Pte(tab, r, v) {
      if r == root && a <= v < a + n { InvalidIsZero(tab, w, root, v); }
    }
  }

  lemma InvalidIsZero(tab: Tables, w: Owners, root: nat, v: nat)
    requires Trees(tab, w) && IsRoot(w, root) && v < MAXVPN && !V(Pte(tab, root, v))
    ensures Pte(tab, root, v) == 0
  {
    LeafTableIs(tab, w, root, v);
    if LeafTable(tab, root, v).Some? { assert Down(tab, w, LeafTable(tab, root, v).page); }
  }

  /** A page taken from the free list, then mapped, was added. */
  lemma MappedIsAdded(tab: Tables, w: Owners, mem: Bytes, w1: Owners, mem1: Bytes,
                      tab2: Tables, w2: Owners, mem2: Bytes, root: nat, v: nat, q: nat, want: Want)
    requires Wanted(want) && IsRoot(w, root) && v < MAXVPN && q in w && w[q] == Free && w1 == w[q := Taken]
    requires SameBytes(mem, mem1, w) && Filled(mem1, w1) && mem1[q] == want.bytes && Filled(mem2, w2)
    requires Mapped(tab, w1, mem1, tab2, w2, mem2, root, v, 1, q, want.flags, true)
    ensures Added(tab, w, mem, tab2, w2, mem2, root, v, [want])
  {
    hide Pte, Entry, V, Page, Flags, Rwx, U, NewPage, MappedRange, MapOwned, AddOwned, OthersSame, SameBytes, Roots,
         Filled;
    TakenRoots(w, q);
    RootAfter(w, q, root);
    MappedIsNew(tab, w1, mem1, tab2, w2, mem2, root, v, q, want);
    MappedOthers(tab, tab2, Roots(w), root, v, q, want.flags);
    MappedOwners(w, w1, w2, root, v, q);
    MappedBytes(mem, w, mem1, w1, mem2, q);
  }

  lemma RootAfter(w: Owners, q: nat, root: nat)
    requires IsRoot(w, root) && q in w && w[q] == Free
    ensures root in Roots(w[q := Taken])
  {
  }

  lemma MappedOthers(tab: Tables, tab2: Tables, roots: set<nat>, root: nat, v: nat, q: nat, perm: nat)
    requires perm < 1024 && MappedRange(tab, tab2, roots, root, v, 1, q, perm)
    ensures OthersSame(tab, tab2, roots, root, v, 1)
  {
    hide Pte, Entry;
  }

  lemma MappedOwners(w: Owners, w1: Owners, w2: Owners, root: nat, v: nat, q: nat)
    requires q in w && w[q] == Free && w1 == w[q := Taken] && MapOwned(w1, w2, root, v, 1, q, true)
    ensures AddOwned(w, w2, root, v, 1)
  {
  }

  lemma MappedBytes(mem: Bytes, w: Owners, mem1: Bytes, w1: Owners, mem2: Bytes, q: nat)
    requires q in w && w[q] == Free && w1 == w[q := Taken] && Filled(mem1, w1)
    requires SameBytes(mem, mem1, w) && SameBytes(mem1, mem2, w1)
    ensures SameBytes(mem, mem2, w)
  {
    forall p | p in w && p in mem && p in mem2 && w[p] != Free ensures mem2[p] == mem[p] {
      assert mem1[p] == mem[p];
    }
  }

  lemma MappedIsNew(tab: Tables, w1: Owners, mem1: Bytes, tab2: Tables, w2: Owners, mem2: Bytes, root: nat, v: nat,
                    q: nat, want: Want)
    requires Wanted(want) && v < MAXVPN && q in w1 && w1[q] == Taken && root in Roots(w1)
    requires Filled(mem1, w1) && mem1[q] == want.bytes && Filled(mem2, w2)
    requires Mapped(tab, w1, mem1, tab2, w2, mem2, root, v, 1, q, want.flags, true)
    ensures NewPage(tab2, w2, mem2, root, v, want)
  {
    EntryFields(q, want.flags);
    hide Entry, V, Page, Flags, Rwx, U;
    assert mem2[q] == want.bytes;
    assert Pte(tab2, root, v) == Entry(q + (v - v), want.flags);
    hide Pte;
  }

  lemma TakenRoots(w: Owners, q: nat)
    requires q in w && w[q] == Free
    ensures Roots(w[q := Taken]) == Roots(w)
  {
    forall r | r in w ensures IsRoot(w[q := Taken], r) == IsRoot(w, r) {
    }
  }

  /** A page taken, not mapped for want of a table, and given back. */
  lemma NotMapped(tab: Tables, w: Owners, mem: Bytes, w1: Owners, mem1: Bytes,
                  tab2: Tables, w2: Owners, mem2: Bytes, mem3: Bytes, root: nat, v: nat, q: nat, perm: nat)
    requires perm < 1024 && q in w && w[q] == Free && w1 == w[q := Taken]
    requires SameBytes(mem, mem1, w) && Filled(mem1, w1) && Filled(mem2, w2)
    requires Mapped(tab, w1, mem1, tab2, w2, mem2, root, v, 0, q, perm, true)
    requires SameBytes(mem2, mem3, w2[q := Free])
    ensures w2[q] == Taken
    ensures NewTablesOnly(tab, w, mem, tab2, w2[q := Free], mem3, root)
  {
    TakenRoots(w, q);
    forall p | p in w && p in mem && p in mem3 && w[p] != Free ensures mem3[p] == mem[p] {
      assert mem1[p] == mem[p] && mem2[p] == mem1[p];
    }
  }

  /** What n user pages from page a on cost: the pages and the tables that root lacks for them. */
  ghost function Need(tab: Tables, root: nat, a: nat, n: nat): nat { n + TablesFor(tab, root, a, n) }

  /** These pages and tables have been taken from the free list, and no more. */
  ghost predicate Spent(tab: Tables, free: seq<nat>, tab': Tables, free': seq<nat>, root: nat, a: nat, n: nat) {
    Served(tab, tab', root, a, n) && |free| == |free'| + Need(tab, root, a, n)
  }

  lemma NeedGrows(tab: Tables, root: nat, a: nat, n: nat, k: nat)
    requires n <= k
    ensures Need(tab, root, a, n) <= Need(tab, root, a, k)
  {
    TablesGrow(tab, root, a, n, k);
  }

  lemma NeedOne(tab: Tables, root: nat, a: nat)
    ensures Need(tab, root, a, 1) == 1 + Lacking(tab, root, a)
  {
    assert TablesFor(tab, root, a, 0) == 0;
    assert TablesFor(tab, root, a, 1) == NewFor(tab, root, a, a);
  }

  /** The next page costs what the rest of the range did at the start. */
  lemma NeedNext(tab: Tables, free: seq<nat>, tab1: Tables, free1: seq<nat>, root: nat, a: nat, n: nat)
    requires Spent(tab, free, tab1, free1, root, a, n) && a + n < MAXVPN
    ensures Need(tab, root, a, n + 1) == Need(tab, root, a, n) + Need(tab1, root, a + n, 1)
  {
    NeedOne(tab1, root, a + n);
    NextLacks(tab, tab1, root, a, n);
    hide NewFor, Lacking, Served;
  }

  lemma SpentMore(tab: Tables, free: seq<nat>, tab1: Tables, free1: seq<nat>, tab2: Tables, free2: seq<nat>, root: nat,
                  a: nat, n: nat)
    requires Spent(tab, free, tab1, free1, root, a, n) && Spent(tab1, free1, tab2, free2, root, a + n, 1) &&
             a + n < MAXVPN
    ensures Spent(tab, free, tab2, free2, root, a, n + 1)
  {
    NeedNext(tab, free, tab1, free1, root, a, n);
    ServedMore(tab, tab1, tab2, root, a, n);
    hide Need, Served;
  }

  lemma SpentAll(tab: Tables, free: seq<nat>, tab1: Tables, free1: seq<nat>, root: nat, a: nat, n: nat)
    requires Spent(tab, free, tab1, free1, root, a, n) &&
             (free1 == [] || (a + n < MAXVPN && |free1| < Need(tab1, root, a + n, 1)))
    ensures |free| < Need(tab, root, a, n + 1)
  {
    NeedGrows(tab, root, a, n, n + 1);
    if free1 != [] { NeedNext(tab, free, tab1, free1, root, a, n); }
    hide Served, NewFor;
  }

  lemma SpentNone(tab: Tables, free: seq<nat>, root: nat, a: nat)
    ensures Spent(tab, free, tab, free, root, a, 0)
  {
    ServedNone(tab, root, a);
  }

  /** kalloc, fill, mappages, and kfree if that fails: kernel/vm.c:247-257 and 329-335. */
  method AddPage(m: Memory, root: nat, v: nat, flags: nat, bytes: seq<Byte>) returns (r: Result)
    requires m.Valid() && IsRoot(m.w, root) && Wanted(Want(flags, bytes)) && v * PGSIZE + PGSIZE <= U64
    modifies m
    ensures m.Valid() && IsRoot(m.w, root)
    ensures r.Ok? ==> Added(old(m.tab), old(m.w), old(m.mem), m.tab, m.w, m.mem, root, v, [Want(flags, bytes)])
    ensures r.NoMemory? ==> NewTablesOnly(old(m.tab), old(m.w), old(m.mem), m.tab, m.w, m.mem, root)
    ensures r.Panic? ==> !Unmapped(old(m.tab), root, v, 1)
    ensures r.Ok? ==> Unmapped(old(m.tab), root, v, 1)
    ensures r.Ok? ==> Spent(old(m.tab), old(m.free), m.tab, m.free, root, v, 1)
    ensures r.NoMemory? ==> old(m.free) == [] || (v < MAXVPN && |old(m.free)| < Need(old(m.tab), root, v, 1))
  {
    hide Trees, FreeOk, Filled, Pte, Roots, Mapped, SameBytes, Unmapped, Added, NewTablesOnly, Entry, Rwx, V, U,
         Served, TablesFor, Last;
    var q := m.Kalloc();
    if q == 0 {
      NewTablesNone(m.tab, m.w, m.mem, root);
      return NoMemory;
    }
    FillKeepsBytes(old(m.mem), m.mem, old(m.w), q, bytes);
    m.SetPage(q, bytes);
    CanMapTaken(m.w, q, flags);
    assert (v * PGSIZE) / PGSIZE == v && (v * PGSIZE + PGSIZE - 1) / PGSIZE == v;
    LastIs(v * PGSIZE, PGSIZE);
    label filled:
    ghost var done;
    r, done := MapPages(m, root, v * PGSIZE, PGSIZE, q, flags, true);
    if r.Ok? {
      BelowMaxVa(old(m.tab), root, v);
      MappedIsAdded(old(m.tab), old(m.w), old(m.mem), old@filled(m.w), old@filled(m.mem), m.tab, m.w, m.mem,
                    root, v, q, Want(flags, bytes));
    } else if r.NoMemory? {
      label failed:
      BelowMaxVa(old(m.tab), root, v);
      StillTaken(old@filled(m.tab), old@filled(m.w), old@filled(m.mem), m.tab, m.w, m.mem, root, v, q, flags);
      KfreeTaken(m, q);
      NotMapped(old(m.tab), old(m.w), old(m.mem), old@filled(m.w), old@filled(m.mem),
                m.tab, old@failed(m.w), old@failed(m.mem), m.mem, root, v, q, flags);
    }
  }

  method KfreeTaken(m: Memory, q: nat)
    requires m.Valid() && q in m.w && m.w[q] == Taken
    modifies m
    ensures m.Valid() && m.tab == old(m.tab) && m.w == old(m.w)[q := Free]
    ensures SameBytes(old(m.mem), m.mem, m.w)
    ensures forall r :: IsRoot(old(m.w), r) ==> IsRoot(m.w, r)
  {
    Retag(m.tab, m.w, q, Free);
    var freed := m.Kfree(q);
  }

  lemma BelowMaxVa(tab: Tables, root: nat, v: nat)
    requires Unmapped(tab, root, v, 1)
    ensures v < MAXVPN
  {
  }

  lemma FillKeepsBytes(mem: Bytes, mem1: Bytes, w: Owners, q: nat, bytes: seq<Byte>)
    requires SameBytes(mem, mem1, w) && q in w && w[q] == Free
    ensures SameBytes(mem, mem1[q := bytes], w)
  {
  }

  lemma CanMapTaken(w: Owners, q: nat, flags: nat)
    requires q in w && w[q] == Taken && flags < 1024 && Rwx(flags)
    ensures CanMapAll(w, q, 1, flags, true)
  {
    EntryFields(q, flags);
  }

  lemma StillTaken(tab: Tables, w: Owners, mem: Bytes, tab': Tables, w': Owners, mem': Bytes, root: nat, v: nat, q: nat,
                   perm: nat)
    requires perm < 1024 && Mapped(tab, w, mem, tab', w', mem', root, v, 0, q, perm, true) && q in w && w[q] == Taken
    ensures q in w' && w'[q] == Taken
  {
  }

  /** Every mapped page among the n pages from a on is a data page of root. */
  ghost predicate OwnRange(tab: Tables, w: Owners, root: nat, a: nat, n: nat) {
    forall v: nat :: a <= v < a + n && v < MAXVPN && V(Pte(tab, root, v)) ==>
        IsNode(w, Page(Pte(tab, root, v)), root, -1, v)
  }

  lemma OwnIsFreeable(tab: Tables, w: Owners, root: nat, a: nat, n: nat)
    requires OwnRange(tab, w, root, a, n) && n > 0
    ensures FreeableRange(tab, w, root, a, a + n - 1)
  {
  }

  lemma AddedAreOwn(tab: Tables, w: Owners, mem: Bytes, tab': Tables, w': Owners, mem': Bytes, root: nat, a: nat,
                    want: seq<Want>)
    requires Added(tab, w, mem, tab', w', mem', root, a, want)
    ensures OwnRange(tab', w', root, a, |want|) && AllMapped(tab', root, a, |want|)
  {
    forall v: nat | a <= v < a + |want|
      ensures V(Pte(tab', root, v)) && IsNode(w', Page(Pte(tab', root, v)), root, -1, v)
    {
      assert NewPageAt(tab', w', mem', root, a, want, v);
    }
  }

  lemma RoundUpRange(a: nat, sz: nat)
    ensures a < RoundUp(sz) ==> a * PGSIZE < sz && (sz - 1) / PGSIZE == RoundUp(sz) - 1
    ensures a >= RoundUp(sz) ==> a * PGSIZE >= sz
    ensures (a * PGSIZE) / PGSIZE == a && RoundUp(a * PGSIZE) == a
  {
  }

  lemma PagesAbove(lo: nat, hi: nat)
    requires lo <= hi
    ensures RoundUp(lo) + PagesBetween(lo, hi) == RoundUp(hi)
  {
  }

  /** uvmunmap of the pages from page a up to size sz. */
  method UnmapBetween(m: Memory, root: nat, a: nat, sz: nat) returns (r: Result)
    requires m.Valid() && IsRoot(m.w, root) && a < RoundUp(sz) && sz <= MAXVPN * PGSIZE
    requires OwnRange(m.tab, m.w, root, a, RoundUp(sz) - a)
    modifies m
    ensures m.Valid() && IsRoot(m.w, root) && !r.NoMemory?
    ensures r.Ok? <==> AllMapped(old(m.tab), root, a, RoundUp(sz) - a)
    ensures r.Ok? ==> Unmapping(old(m.tab), old(m.w), old(m.mem), m.tab, m.w, m.mem, root, a, RoundUp(sz) - a, Free)
  {
    hide Trees, FreeOk, Filled, OwnRange, Unmapping, FreeableRange, IsRoot, RoundUp, AllMapped, Last;
    RoundUpRange(a, sz);
    LastIs(a * PGSIZE, sz - a * PGSIZE);
    OwnIsFreeable(m.tab, m.w, root, a, RoundUp(sz) - a);
    r := UvmUnmap(m, root, a * PGSIZE, sz - a * PGSIZE, true);
  }

  /** kernel/vm.c:266-277: the pages between the two sizes are unmapped and freed; a panic
      means that one of them was not mapped. */
  method UvmDealloc(m: Memory, root: nat, oldsz: nat, newsz: nat) returns (r: Result, size: nat)
    requires m.Valid() && IsRoot(m.w, root) && oldsz <= MAXVPN * PGSIZE
    requires newsz < oldsz ==> OwnRange(m.tab, m.w, root, RoundUp(newsz), PagesBetween(newsz, oldsz))
    modifies m
    ensures m.Valid() && IsRoot(m.w, root) && !r.NoMemory?
    ensures size == if newsz >= oldsz then oldsz else newsz
    ensures newsz >= oldsz ==> r.Ok? && m.tab == old(m.tab) && m.w == old(m.w) && m.mem == old(m.mem)
    ensures newsz < oldsz ==> (r.Ok? <==> AllMapped(old(m.tab), root, RoundUp(newsz), PagesBetween(newsz, oldsz)))
    ensures newsz < oldsz && r.Ok? ==>
              Unmapping(old(m.tab), old(m.w), old(m.mem), m.tab, m.w, m.mem, root, RoundUp(newsz),
                        PagesBetween(newsz, oldsz), Free)
  {
    hide Trees, FreeOk, Filled, OwnRange, Unmapping, FreeableRange, IsRoot, RoundUp, AllMapped, Last, PagesBetween;
    if newsz >= oldsz { return Ok, oldsz; }
    PagesAbove(newsz, oldsz);
    var newup := RoundUp(newsz);
    if newup < RoundUp(oldsz) {
      r := UnmapBetween(m, root, newup, oldsz);
    } else {
      UnmappingNothing(m.tab, m.w, m.mem, root, newup, Free);
      NoneMapped(m.tab, root, newup);
      r := Ok;
    }
    size := newsz;
  }

  lemma NoneMapped(tab: Tables, root: nat, a: nat)
    ensures AllMapped(tab, root, a, 0)
  {
  }

  ghost function Repeated(x: Want, n: nat): (s: seq<Want>)
    ensures |s| == n
  {
    seq(n, _ => x)
  }

  /** By the bits of its entry, page v is valid, readable, writable, executable and open to
      the user; and all its bytes are 0. */
  ghost predicate ZeroedUserPage(tab: Tables, mem: Bytes, root: nat, v: nat) {
    var e := Pte(tab, root, v);
    && Blocks.BitOf(e, 0) && Blocks.BitOf(e, 1) && Blocks.BitOf(e, 2) && Blocks.BitOf(e, 3) && Blocks.BitOf(e, 4)
    && Page(e) in mem && |mem[Page(e)]| == PGSIZE
    && forall i :: 0 <= i < PGSIZE ==> mem[Page(e)][i] == 0
  }

  lemma UserBits()
    ensures Blocks.BitOf(USER, 0) && Blocks.BitOf(USER, 1) && Blocks.BitOf(USER, 2)
    ensures Blocks.BitOf(USER, 3) && Blocks.BitOf(USER, 4)
  {
    FirstBits(USER);
  }

  lemma AddedZeroed(tab: Tables, w: Owners, mem: Bytes, tab': Tables, w': Owners, mem': Bytes, root: nat, oldsz: nat,
                    newsz: nat, v: nat)
    requires Added(tab, w, mem, tab', w', mem', root, RoundUp(oldsz),
                   Repeated(Want(USER, ZeroPage()), PagesBetween(oldsz, newsz)))
    requires oldsz <= v * PGSIZE < newsz
    ensures ZeroedUserPage(tab', mem', root, v)
  {
    RoundUpRange(v, oldsz);
    RoundUpRange(v, newsz);
    assert NewPageAt(tab', w', mem', root, RoundUp(oldsz), Repeated(Want(USER, ZeroPage()), PagesBetween(oldsz, newsz)),
                     v);
    hide Pte, OthersSame, AddOwned, SameBytes, Blocks.BitOf;
    UserBits();
    FlagBits(Pte(tab', root, v));
  }

  /** kernel/vm.c:235-260. On success the address space grew by exactly the zeroed user pages
      between the two sizes. On failure every leaf mapping is as it was and every data page
      is back on the free list; only new tables remain. A panic needs a page in the range
      that is mapped already or above MAXVA. */
  method UvmAlloc(m: Memory, root: nat, oldsz: nat, newsz: nat) returns (r: Result, size: nat)
    requires m.Valid() && IsRoot(m.w, root) && oldsz <= MAXVPN * PGSIZE && newsz <= U64 - PGSIZE
    modifies m
    ensures m.Valid() && IsRoot(m.w, root)
    ensures size == (if newsz < oldsz then oldsz else if r.Ok? then newsz else 0)
    ensures newsz < oldsz ==> r.Ok? && m.tab == old(m.tab) && m.w == old(m.w) && m.mem == old(m.mem)
    ensures newsz >= oldsz && r.Ok? ==>
              Added(old(m.tab), old(m.w), old(m.mem), m.tab, m.w, m.mem, root, RoundUp(oldsz),
                    Repeated(Want(USER, ZeroPage()), PagesBetween(oldsz, newsz)))
    ensures r.Ok? ==> forall v: nat :: oldsz <= v * PGSIZE < newsz ==> ZeroedUserPage(m.tab, m.mem, root, v)
    ensures r.NoMemory? ==> NewTablesOnly(old(m.tab), old(m.w), old(m.mem), m.tab, m.w, m.mem, root)
    ensures newsz >= oldsz ==>
              var first, n := RoundUp(oldsz), PagesBetween(oldsz, newsz);
              && (r.Ok? <==> Unmapped(old(m.tab), root, first, n) && |old(m.free)| >= Need(old(m.tab), root, first, n))
              && (r.NoMemory? ==> |old(m.free)| < Need(old(m.tab), root, first, n))
              && (r.Panic? ==> !Unmapped(old(m.tab), root, first, n))
              && (r.Ok? ==> Spent(old(m.tab), old(m.free), m.tab, m.free, root, first, n))
  {
    if newsz < oldsz { return Ok, oldsz; }
    hide Trees, FreeOk, Filled, Added, NewTablesOnly, IsRoot, Unmapped, RoundUp, PagesBetween, Repeated, Spent, Need,
         ZeroedUserPage;
    PagesAbove(oldsz, newsz);
    RoundUpRange(MAXVPN, oldsz);
    r := AddZeroed(m, root, RoundUp(oldsz), newsz, PagesBetween(oldsz, newsz));
    size := if r.Ok? then newsz else 0;
    if r.Ok? {
      forall v: nat | oldsz <= v * PGSIZE < newsz ensures ZeroedUserPage(m.tab, m.mem, root, v) {
        AddedZeroed(old(m.tab), old(m.w), old(m.mem), m.tab, m.w, m.mem, root, oldsz, newsz, v);
      }
    }
  }

  /** The loop of uvmalloc, from page first up to size newsz. */
  method AddZeroed(m: Memory, root: nat, first: nat, newsz: nat, ghost n: nat) returns (r: Result)
    requires m.Valid() && IsRoot(m.w, root) && first <= MAXVPN && newsz <= U64 - PGSIZE && first + n == RoundUp(newsz)
    modifies m
    ensures m.Valid() && IsRoot(m.w, root)
    ensures r.Ok? ==>
              Added(old(m.tab), old(m.w), old(m.mem), m.tab, m.w, m.mem, root, first,
                    Repeated(Want(USER, ZeroPage()), n))
    ensures r.NoMemory? ==> NewTablesOnly(old(m.tab), old(m.w), old(m.mem), m.tab, m.w, m.mem, root)
    ensures r.Panic? ==> !Unmapped(old(m.tab), root, first, n)
    ensures r.NoMemory? ==> |old(m.free)| < Need(old(m.tab), root, first, n)
    ensures r.Ok? ==>
              Unmapped(old(m.tab), root, first, n) && Spent(old(m.tab), old(m.free), m.tab, m.free, root, first, n)
    ensures r.Ok? ==> |old(m.free)| >= Need(old(m.tab), root, first, n)
  {
    hide Trees, FreeOk, Filled, Added, NewTablesOnly, IsRoot, Unmapped, RoundUp, Repeated, Wanted, Spent, Need;
    var a := first;
    SpentNone(m.tab, m.free, root, first);
    ghost var zero := Want(USER, ZeroPage());
    RepeatedMore(zero, 0);
    AddedNothing(m.tab, m.w, m.mem, root, first);
    NoneUnmapped(m.tab, root, first);
    UserWanted();
    while a * PGSIZE < newsz
      invariant m.Valid() && IsRoot(m.w, root)
      invariant first <= a <= first + n
      invariant Added(old(m.tab), old(m.w), old(m.mem), m.tab, m.w, m.mem, root, first, Repeated(zero, a - first))
      invariant Unmapped(old(m.tab), root, first, a - first)
      invariant Spent(old(m.tab), old(m.free), m.tab, m.free, root, first, a - first)
    {
      RoundUpRange(a, newsz);
      r := AddNext(m, root, a, USER, ZeroPage(), old(m.tab), old(m.w), old(m.mem), old(m.free), first,
                   Repeated(zero, a - first), n);
      if r.Panic? { return; }
      if r.NoMemory? {
        NeedGrows(old(m.tab), root, first, a - first + 1, n);
        TakeBack(m, root, first, a, old(m.tab), old(m.w), old(m.mem), Repeated(zero, a - first));
        return;
      }
      RepeatedMore(zero, a - first);
      a := a + 1;
    }
    RoundUpRange(a, newsz);
    SpentIs(old(m.tab), old(m.free), m.tab, m.free, root, first, n);
    r := Ok;
  }

  lemma SpentIs(tab: Tables, free: seq<nat>, tab1: Tables, free1: seq<nat>, root: nat, a: nat, n: nat)
    requires Spent(tab, free, tab1, free1, root, a, n)
    ensures |free| == |free1| + Need(tab, root, a, n)
  {
  }

  lemma RepeatedMore(x: Want, n: nat)
    ensures Repeated(x, 0) == [] && Repeated(x, n) + [x] == Repeated(x, n + 1)
  {
  }

  /** One turn of the loops of uvmalloc and uvmcopy: one more page, or the pages so far. */
  method AddNext(m: Memory, root: nat, v: nat, flags: nat, bytes: seq<Byte>, ghost tab: Tables, ghost w: Owners,
                 ghost mem: Bytes, ghost free: seq<nat>, ghost first: nat, ghost want: seq<Want>, ghost n: nat)
    returns (r: Result)
    requires m.Valid() && IsRoot(m.w, root) && Wanted(Want(flags, bytes)) && v * PGSIZE + PGSIZE <= U64
    requires v == first + |want| && |want| < n && IsRoot(w, root) && Unmapped(tab, root, first, |want|)
    requires Added(tab, w, mem, m.tab, m.w, m.mem, root, first, want)
    requires Spent(tab, free, m.tab, m.free, root, first, |want|)
    modifies m
    ensures m.Valid() && IsRoot(m.w, root)
    ensures r.Ok? ==> Spent(tab, free, m.tab, m.free, root, first, |want| + 1)
    ensures r.NoMemory? ==> |free| < Need(tab, root, first, |want| + 1)
    ensures r.Ok? ==> Added(tab, w, mem, m.tab, m.w, m.mem, root, first, want + [Want(flags, bytes)])
    ensures r.Ok? ==> Unmapped(tab, root, first, |want| + 1)
    ensures r.NoMemory? ==> Added(tab, w, mem, m.tab, m.w, m.mem, root, first, want)
    ensures r.Panic? ==> !Unmapped(tab, root, first, n)
  {
    hide Trees, FreeOk, Filled, Added, NewTablesOnly, Pte, IsRoot, Unmapped, Wanted, Spent, Need;
    label before:
    r := AddPage(m, root, v, flags, bytes);
    SameBefore(tab, w, mem, old@before(m.tab), old@before(m.w), old@before(m.mem), root, first, want, n);
    if r.NoMemory? {
      SpentAll(tab, free, old@before(m.tab), old@before(m.free), root, first, |want|);
      AddedThenTables(tab, w, mem, old@before(m.tab), old@before(m.w), old@before(m.mem), m.tab, m.w, m.mem, root,
                      first, want);
    } else if r.Ok? {
      BelowMaxVa(old@before(m.tab), root, v);
      SpentMore(tab, free, old@before(m.tab), old@before(m.free), m.tab, m.free, root, first, |want|);
      AddedOne(tab, w, mem, old@before(m.tab), old@before(m.w), old@before(m.mem), m.tab, m.w, m.mem, root, first, want,
               Want(flags, bytes));
    }
  }

  lemma UserWanted()
    ensures Wanted(Want(USER, ZeroPage()))
  {
  }

  lemma NoneUnmapped(tab: Tables, root: nat, a: nat)
    ensures Unmapped(tab, root, a, 0)
  {
  }

  /** The page after the ones added so far is as it was at the start. */
  lemma SameBefore(tab: Tables, w: Owners, mem: Bytes, tab1: Tables, w1: Owners, mem1: Bytes, root: nat, a: nat,
                   want: seq<Want>, n: nat)
    requires Added(tab, w, mem, tab1, w1, mem1, root, a, want) && IsRoot(w, root) && Unmapped(tab, root, a, |want|)
    requires |want| < n
    ensures Unmapped(tab1, root, a + |want|, 1) ==> Unmapped(tab, root, a, |want| + 1)
    ensures !Unmapped(tab1, root, a + |want|, 1) ==> !Unmapped(tab, root, a, n)
  {
    assert root in Roots(w);
    if a + |want| < MAXVPN {
      assert Pte(tab1, root, a + |want|) == Pte(tab, root, a + |want|);
    }
  }

  /** The failure path: uvmdealloc back to the first page added. */
  method TakeBack(m: Memory, root: nat, first: nat, a: nat, ghost tab: Tables, ghost w: Owners, ghost mem: Bytes,
                  ghost want: seq<Want>)
    requires m.Valid() && IsRoot(m.w, root) && first <= a && |want| == a - first && first <= MAXVPN
    requires Trees(tab, w) && IsRoot(w, root) && Unmapped(tab, root, first, |want|)
    requires Added(tab, w, mem, m.tab, m.w, m.mem, root, first, want)
    modifies m
    ensures m.Valid() && IsRoot(m.w, root) && NewTablesOnly(tab, w, mem, m.tab, m.w, m.mem, root)
  {
    hide Trees, FreeOk, Filled, NewTablesOnly, Roots, Pte, OwnRange, IsRoot, Unmapping, SameBytes, AddOwned,
         OthersSame, NewPageAt;
    AddedAreOwn(tab, w, mem, m.tab, m.w, m.mem, root, first, want);
    label before:
    assert RoundUp(a * PGSIZE) == a && RoundUp(first * PGSIZE) == first;
    var r, size := UvmDealloc(m, root, a * PGSIZE, first * PGSIZE);
    if a == first { UnmappingNothing(m.tab, m.w, m.mem, root, first, Free); }
    AddedUndone(tab, w, mem, old@before(m.tab), old@before(m.w), old@before(m.mem), m.tab, m.w, m.mem, root, first,
                want);
  }

  // ---- fork -------------------------------------------------------------------------

  /** The flags and contents of page v in an address space. */
  ghost function PageOf(tab: Tables, mem: Bytes, root: nat, v: nat): Want
    requires Page(Pte(tab, root, v)) in mem
  {
    Want(Flags(Pte(tab, root, v)), mem[Page(Pte(tab, root, v))])
  }

  ghost predicate Present(tab: Tables, mem: Bytes, root: nat, n: nat) {
    forall v: nat :: v < n ==> Page(Pte(tab, root, v)) in mem
  }

  /** The first n pages of an address space. */
  ghost function Image(tab: Tables, mem: Bytes, root: nat, n: nat): (s: seq<Want>)
    requires Present(tab, mem, root, n)
    ensures |s| == n
  {
    seq(n, v requires 0 <= v < n => PageOf(tab, mem, root, v))
  }

  /** An address space stays as it is while another one grows. */
  lemma SourceKept(tab: Tables, w: Owners, mem: Bytes, tab1: Tables, w1: Owners, mem1: Bytes, src: nat, root: nat,
                   want: seq<Want>, v: nat)
    requires Added(tab, w, mem, tab1, w1, mem1, root, 0, want) && Trees(tab, w) && IsRoot(w, src) && src != root
    requires v < MAXVPN && V(Pte(tab1, src, v)) && OwnRange(tab, w, src, v, 1) && Filled(mem, w) && Filled(mem1, w1)
    ensures V(Pte(tab, src, v)) && Page(Pte(tab, src, v)) in mem && Page(Pte(tab1, src, v)) in mem1
    ensures PageOf(tab1, mem1, src, v) == PageOf(tab, mem, src, v) && Wanted(PageOf(tab, mem, src, v))
  {
    hide Trees, Pte, V, Page, Flags, NewPageAt;
    assert src in Roots(w);
    var e := Pte(tab, src, v);
    assert Pte(tab1, src, v) == e;
    assert IsNode(w, Page(e), src, -1, v);
    assert w1[Page(e)] == w[Page(e)];
    LeafFlags(tab, w, src, v);
  }

  lemma LeafFlags(tab: Tables, w: Owners, src: nat, v: nat)
    requires Trees(tab, w) && IsRoot(w, src) && v < MAXVPN && V(Pte(tab, src, v))
    ensures var f := Flags(Pte(tab, src, v)); f < 1024 && V(f) && Rwx(f)
  {
    LeafTableIs(tab, w, src, v);
    FoundLeaf(tab, w, src, v, LeafTable(tab, src, v).page);
    var e := Pte(tab, src, v);
    FieldsOf(Page(e), Flags(e));
  }

  lemma ImageMore(tab: Tables, mem: Bytes, root: nat, n: nat)
    requires Present(tab, mem, root, n) && Page(Pte(tab, root, n)) in mem
    ensures Present(tab, mem, root, n + 1)
    ensures Image(tab, mem, root, n) + [PageOf(tab, mem, root, n)] == Image(tab, mem, root, n + 1)
  {
  }

  lemma ImageNone(tab: Tables, mem: Bytes, root: nat)
    ensures Present(tab, mem, root, 0) && Image(tab, mem, root, 0) == []
  {
  }

  /** kernel/vm.c:314-342, into an address space without user pages. On success the child has
      the parent's pages, with equal flags and equal bytes, on pages that were free. When
      memory runs out after the first page, the child's map is as before and all copies are
      free again. When it runs out at the first page, unmapping zero pages panics; the only
      other panic is a page that the parent does not have. So fork of a process whose pages
      are all there panics exactly when the free list cannot pay for the first page and the
      tables that the child lacks for it. */
  method UvmCopy(m: Memory, src: nat, dst: nat, sz: nat) returns (r: Result, ghost copied: nat)
    requires m.Valid() && IsRoot(m.w, src) && IsRoot(m.w, dst) && src != dst && sz <= U64 - PGSIZE
    requires OwnRange(m.tab, m.w, src, 0, RoundUp(sz)) && Unmapped(m.tab, dst, 0, RoundUp(sz))
    modifies m
    ensures m.Valid() && IsRoot(m.w, dst)
    ensures copied <= RoundUp(sz) && AllMapped(old(m.tab), src, 0, copied)
    ensures r.Ok? <==> copied == RoundUp(sz)
    ensures r.Ok? ==> Present(old(m.tab), old(m.mem), src, RoundUp(sz))
    ensures r.Ok? ==>
              Added(old(m.tab), old(m.w), old(m.mem), m.tab, m.w, m.mem, dst, 0,
                    Image(old(m.tab), old(m.mem), src, RoundUp(sz)))
    ensures r.NoMemory? ==> copied > 0 && NewTablesOnly(old(m.tab), old(m.w), old(m.mem), m.tab, m.w, m.mem, dst)
    ensures r.Panic? ==> copied == 0 || !AllMapped(old(m.tab), src, 0, copied + 1)
    ensures r.Ok? <==>
              AllMapped(old(m.tab), src, 0, RoundUp(sz)) && |old(m.free)| >= Need(old(m.tab), dst, 0, RoundUp(sz))
    ensures r.NoMemory? ==> |old(m.free)| < Need(old(m.tab), dst, 0, RoundUp(sz))
    ensures AllMapped(old(m.tab), src, 0, RoundUp(sz)) ==>
              (r.Panic? <==> sz > 0 && |old(m.free)| < 1 + Lacking(old(m.tab), dst, 0))
    ensures r.Ok? ==> Spent(old(m.tab), old(m.free), m.tab, m.free, dst, 0, RoundUp(sz))
  {
    hide Trees, FreeOk, Filled, Added, NewTablesOnly, Unmapping, Roots, Pte, OwnRange, Unmapped, AllMapped, RoundUp,
         Image, Present, IsRoot, Wanted, Flags, V, FreeableRange, Spent, Need, Lacking;
    ghost var n := RoundUp(sz);
    RoundUpRange(0, sz);
    SpentNone(m.tab, m.free, dst, 0);
    NeedOne(m.tab, dst, 0);
    copied := 0;
    AddedNothing(m.tab, m.w, m.mem, dst, 0);
    ImageNone(m.tab, m.mem, src);
    NoneMapped(m.tab, src, 0);
    var i := 0;
    while i * PGSIZE < sz
      invariant m.Valid() && IsRoot(m.w, src) && IsRoot(m.w, dst)
      invariant i == copied <= n && AllMapped(old(m.tab), src, 0, copied)
      invariant Present(old(m.tab), old(m.mem), src, i)
      invariant Added(old(m.tab), old(m.w), old(m.mem), m.tab, m.w, m.mem, dst, 0,
                      Image(old(m.tab), old(m.mem), src, i))
      invariant Spent(old(m.tab), old(m.free), m.tab, m.free, dst, 0, i)
    {
      RoundUpRange(i, sz);
      SpentIs(old(m.tab), old(m.free), m.tab, m.free, dst, 0, i);
      r := CopyPage(m, src, dst, i, old(m.tab), old(m.w), old(m.mem), old(m.free), n);
      if r.Panic? {
        MappedPart(old(m.tab), src, i + 1, n);
        return;
      }
      if r.NoMemory? {
        NeedGrows(old(m.tab), dst, 0, i + 1, n);
        if i > 0 { NeedGrows(old(m.tab), dst, 0, 1, i); }
        r := Undo(m, dst, i, old(m.tab), old(m.w), old(m.mem), Image(old(m.tab), old(m.mem), src, i), n);
        return;
      }
      i := i + 1;
      copied := copied + 1;
    }
    RoundUpRange(i, sz);
    SpentIs(old(m.tab), old(m.free), m.tab, m.free, dst, 0, n);
    if n > 0 { NeedGrows(old(m.tab), dst, 0, 1, n); }
    r := Ok;
  }

  lemma MappedPart(tab: Tables, root: nat, k: nat, n: nat)
    requires k <= n && !AllMapped(tab, root, 0, k)
    ensures !AllMapped(tab, root, 0, n)
  {
  }

  /** One turn of the loop of uvmcopy. */
  method CopyPage(m: Memory, src: nat, dst: nat, i: nat, ghost tab: Tables, ghost w: Owners, ghost mem: Bytes,
                  ghost free: seq<nat>, ghost n: nat)
    returns (r: Result)
    requires m.Valid() && IsRoot(m.w, src) && IsRoot(m.w, dst) && src != dst && i < n && i * PGSIZE + PGSIZE <= U64
    requires Trees(tab, w) && Filled(mem, w) && IsRoot(w, src) && IsRoot(w, dst) && Present(tab, mem, src, i)
    requires OwnRange(tab, w, src, 0, n) && Unmapped(tab, dst, 0, n) && AllMapped(tab, src, 0, i)
    requires Added(tab, w, mem, m.tab, m.w, m.mem, dst, 0, Image(tab, mem, src, i))
    requires Spent(tab, free, m.tab, m.free, dst, 0, i)
    modifies m
    ensures r.Ok? ==> Spent(tab, free, m.tab, m.free, dst, 0, i + 1)
    ensures r.NoMemory? ==> |free| < Need(tab, dst, 0, i + 1)
    ensures m.Valid() && IsRoot(m.w, src) && IsRoot(m.w, dst)
    ensures r.Ok? ==> AllMapped(tab, src, 0, i + 1) && Present(tab, mem, src, i + 1)
    ensures r.Ok? ==> Added(tab, w, mem, m.tab, m.w, m.mem, dst, 0, Image(tab, mem, src, i + 1))
    ensures r.NoMemory? ==> Added(tab, w, mem, m.tab, m.w, m.mem, dst, 0, Image(tab, mem, src, i))
    ensures r.Panic? ==> !AllMapped(tab, src, 0, i + 1)
  {
    hide Trees, FreeOk, Filled, Added, NewTablesOnly, Unmapping, Roots, Pte, OwnRange, Unmapped, AllMapped, Image,
         Present, IsRoot, Wanted, Spent, Need;
    SourceEntry(tab, w, mem, m.tab, m.w, m.mem, src, dst, Image(tab, mem, src, i), i, n);
    var s := Walk(m, src, i, false);
    if !s.Slot? { return Panic; }
    FoundLeaf(m.tab, m.w, src, i, s.page);
    var e := EntryAt(m.tab, s.page, Px(0, i));
    if !V(e) { return Panic; }
    SourceKept(tab, w, mem, m.tab, m.w, m.mem, src, dst, Image(tab, mem, src, i), i);
    ImageMore(tab, mem, src, i);
    r := AddNext(m, dst, i, Flags(e), m.mem[Page(e)], tab, w, mem, free, 0, Image(tab, mem, src, i), n);
    if !r.Panic? { AddedKeepsRoot(tab, w, mem, m.tab, m.w, m.mem, src, dst,
                                  if r.Ok? then Image(tab, mem, src, i + 1) else Image(tab, mem, src, i)); }
  }

  lemma AddedKeepsRoot(tab: Tables, w: Owners, mem: Bytes, tab1: Tables, w1: Owners, mem1: Bytes, src: nat, root: nat,
                       want: seq<Want>)
    requires Added(tab, w, mem, tab1, w1, mem1, root, 0, want) && IsRoot(w, src)
    ensures IsRoot(w1, src)
  {
  }

  lemma SourceEntry(tab: Tables, w: Owners, mem: Bytes, tab1: Tables, w1: Owners, mem1: Bytes, src: nat, root: nat,
                    want: seq<Want>, v: nat, n: nat)
    requires Added(tab, w, mem, tab1, w1, mem1, root, 0, want) && IsRoot(w, src) && src != root && v < n
    requires Unmapped(tab, root, 0, n) && OwnRange(tab, w, src, 0, n) && AllMapped(tab, src, 0, v)
    ensures v < MAXVPN && Pte(tab1, src, v) == Pte(tab, src, v) && OwnRange(tab, w, src, v, 1)
    ensures Unmapped(tab, root, 0, v)
    ensures AllMapped(tab, src, 0, v + 1) <==> V(Pte(tab, src, v))
  {
    assert src in Roots(w);
  }

  /** The failure path of uvmcopy: uvmunmap(new, 0, i, 1). */
  method Undo(m: Memory, dst: nat, i: nat, ghost tab: Tables, ghost w: Owners, ghost mem: Bytes, ghost want: seq<Want>,
              ghost n: nat)
    returns (r: Result)
    requires m.Valid() && IsRoot(m.w, dst) && i == |want| && i < n && i * PGSIZE < U64
    requires Trees(tab, w) && IsRoot(w, dst) && Unmapped(tab, dst, 0, n) &&
             Added(tab, w, mem, m.tab, m.w, m.mem, dst, 0, want)
    modifies m
    ensures m.Valid() && IsRoot(m.w, dst) && !r.Ok?
    ensures r.Panic? <==> i == 0
    ensures r.NoMemory? ==> NewTablesOnly(tab, w, mem, m.tab, m.w, m.mem, dst)
  {
    hide Trees, FreeOk, Filled, NewTablesOnly, Roots, Pte, OwnRange, IsRoot, Unmapping, Added, FreeableRange, Last;
    AddedAreOwn(tab, w, mem, m.tab, m.w, m.mem, dst, 0, want);
    LastIs(0, i * PGSIZE);
    label before:
    if i == 0 {
      NothingFreeable(tab, w, mem, m.tab, m.w, m.mem, dst, want, n);
    } else {
      OwnIsFreeable(m.tab, m.w, dst, 0, i);
    }
    r := UvmUnmap(m, dst, 0, i * PGSIZE, true);
    if r.Ok? {
      AddedUndone(tab, w, mem, old@before(m.tab), old@before(m.w), old@before(m.mem), m.tab, m.w, m.mem, dst, 0, want);
      r := NoMemory;
    }
  }

  lemma NothingFreeable(tab: Tables, w: Owners, mem: Bytes, tab1: Tables, w1: Owners, mem1: Bytes, root: nat,
                        want: seq<Want>, n: nat)
    requires Added(tab, w, mem, tab1, w1, mem1, root, 0, want) && want == [] && Unmapped(tab, root, 0, n) && n > 0 &&
             IsRoot(w, root)
    ensures FreeableRange(tab1, w1, root, 0, Last(0, 0))
    ensures !AllMapped(tab1, root, 0, Last(0, 0) - 0 + 1)
  {
    assert root in Roots(w);
    assert Pte(tab1, root, 0) == Pte(tab, root, 0);
    LastIs(0, 0);
    forall v: nat | v < MAXVPN && V(Pte(tab1, root, v)) ensures !AllMapped(tab1, root, 0, v - 0) {
    }
  }

  // ---- a fork that panics --------------------------------------------------------------

  /** Two page tables, roots 1 and 2; the first gets the tables 3 and 4 and user page 5. */
  ghost function TwoRoots(): Owners {
    map[1 := Node(1, 2, 0, 0), 2 := Node(2, 2, 0, 0), 3 := Taken, 4 := Taken, 5 := Taken]
  }

  ghost predicate Roots12(tab: Tables, w: Owners) {
    && Trees(tab, w) && IsRoot(w, 1) && IsRoot(w, 2) && w.Keys == {1, 2, 3, 4, 5} && w[5] == Taken
    && Pte(tab, 1, 0) == 0 && Pte(tab, 2, 0) == 0 && forall p :: p in w ==> w[p] != Free
  }

  lemma TwoRootsTrees() returns (tab: Tables)
    ensures Roots12(tab, TwoRoots())
    ensures CanLink(tab, TwoRoots(), 1, 0, 3)
  {
    tab := map[1 := Zeros(), 2 := Zeros()];
    forall p | p in TwoRoots() ensures Down(tab, TwoRoots(), p) && Up(tab, TwoRoots(), p) {
      assert p == 1 || p == 2 || p == 3 || p == 4 || p == 5;
    }
  }

  lemma LinkOne(tab: Tables, w: Owners, p: nat, q: nat) returns (tab': Tables, w': Owners)
    requires Roots12(tab, w) && CanLink(tab, w, p, 0, q) && q != 5
    ensures Roots12(tab', w') && w' == LinkedOwners(w, p, 0, q) && IsTable(tab', q) && EntryAt(tab', q, 0) == 0
  {
    hide Pte, Trees, Down, Up, V, Page;
    LinkTrees(tab, w, p, 0, q);
    LinkMap(tab, w, p, 0, q);
    tab', w' := Linked(tab, p, 0, q), LinkedOwners(w, p, 0, q);
    assert 1 in Roots(w) && 2 in Roots(w);
  }

  lemma MapOne(tab: Tables, w: Owners) returns (tab': Tables, w': Owners)
    requires Roots12(tab, w) && IsNode(w, 4, 1, 0, 0) && EntryAt(tab, 4, 0) == 0
    ensures Trees(tab', w') && FreeOk([], w') && 0 !in w' && IsRoot(w', 1) && IsRoot(w', 2)
    ensures OwnRange(tab', w', 1, 0, 1) && Unmapped(tab', 2, 0, 1) && AllMapped(tab', 1, 0, 1)
  {
    hide Trees, Pte, OwnRange, Unmapped, AllMapped, Page;
    var e := Entry(5, USER);
    EntryFields(5, USER);
    PutLeaf(tab, w, [], 4, 1, 0, e, true);
    tab', w' := Put(tab, 4, Px(0, 0), e), MapOwners(w, 4, 0, e, true);
    assert 1 in Roots(w) && 2 in Roots(w);
    OnePage(tab', w', e);
  }

  /** There is a state in which uvmcopy may be called, the parent's only page is mapped, and
      the free list is too short for the child's first page: the panic can happen. */
  lemma CopyCanPanic()
    ensures exists tab: Tables, w: Owners, mem: Bytes, free: seq<nat> ::
              && Trees(tab, w) && FreeOk(free, w) && Filled(mem, w) && 0 !in w && IsRoot(w, 1) && IsRoot(w, 2)
              && OwnRange(tab, w, 1, 0, RoundUp(PGSIZE)) && Unmapped(tab, 2, 0, RoundUp(PGSIZE))
              && AllMapped(tab, 1, 0, RoundUp(PGSIZE)) && |free| < 1 + Lacking(tab, 2, 0)
  {
    hide Trees, FreeOk, OwnRange, Unmapped, AllMapped, IsRoot, Lacking;
    var tab, w := ParentOfOne();
    var mem: Bytes := map p | p in w :: ZeroPage();
    var free: seq<nat> := [];
    assert RoundUp(PGSIZE) == 1 && Filled(mem, w) && |free| < 1 + Lacking(tab, 2, 0);
  }

  lemma ParentOfOne() returns (tab: Tables, w: Owners)
    ensures Trees(tab, w) && FreeOk([], w) && 0 !in w && IsRoot(w, 1) && IsRoot(w, 2)
    ensures OwnRange(tab, w, 1, 0, 1) && Unmapped(tab, 2, 0, 1) && AllMapped(tab, 1, 0, 1)
  {
    hide Trees, FreeOk, OwnRange, Unmapped, AllMapped, Pte, V;
    tab := TwoRootsTrees();
    w := TwoRoots();
    tab, w := LinkOne(tab, w, 1, 3);
    assert !V(EntryAt(tab, 3, 0)) by { ZeroIsInvalid(); }
    tab, w := LinkOne(tab, w, 3, 4);
    tab, w := MapOne(tab, w);
  }

  lemma ZeroIsInvalid()
    ensures !V(0)
  {
  }

  lemma OnePage(tab: Tables, w: Owners, e: nat)
    requires Pte(tab, 1, 0) == e && V(e) && IsNode(w, Page(e), 1, -1, 0) && Pte(tab, 2, 0) == 0
    ensures OwnRange(tab, w, 1, 0, 1) && Unmapped(tab, 2, 0, 1) && AllMapped(tab, 1, 0, 1)
  {
  }
}
