/** Sv39 page tables as three-level radix trees of pages in physical memory, and the flat
    map from page numbers to page-table entries that they implement (kernel/vm.c:61-91).
    Pages are named by physical page number, virtual addresses by page number below MAXVPN. */
module PageTable {
  import Blocks

  const PTES: nat := 512
  const MAXVPN: nat := 0x400_0000

  // ---- entries -------------------------------------------------------------

  /** A 64-bit entry is page number * 1024 + ten flag bits: V, R, W, X, U, ... from bit 0. */
  function Flags(e: nat): nat { e % 1024 }

  function Page(e: nat): nat { e / 1024 }

  predicate V(e: nat) { e % 2 == 1 }

  predicate U(e: nat) { (e / 16) % 2 == 1 }

  predicate Rwx(e: nat) { (e / 2) % 8 != 0 }

  /** PA2PTE(page) | perm | PTE_V */
  function Entry(page: nat, perm: nat): nat
    requires perm < 1024
  {
    page * 1024 + (if V(perm) then perm else perm + 1)
  }

  lemma Halves(page: nat, f: nat)
    requires f < 1024
    ensures (page * 1024 + f) / 2 == page * 512 + f / 2
  {
  }

  lemma Sixteenths(page: nat, f: nat)
    requires f < 1024
    ensures (page * 1024 + f) / 16 == page * 64 + f / 16
  {
  }

  lemma Mod8(k: nat, f: nat)
    ensures (8 * k + f) % 8 == f % 8
  {
  }

  lemma Mod2(k: nat, f: nat)
    ensures (2 * k + f) % 2 == f % 2
  {
  }

  lemma EvenPlusOne(perm: nat)
    requires !V(perm)
    ensures (perm + 1) / 2 == perm / 2 && (perm + 1) / 16 == perm / 16 && V(perm + 1)
    ensures perm < 1024 ==> perm + 1 < 1024
  {
  }

  lemma EntryFields(page: nat, perm: nat)
    requires perm < 1024
    ensures V(Entry(page, perm)) && Page(Entry(page, perm)) == page
    ensures U(Entry(page, perm)) == U(perm) && Rwx(Entry(page, perm)) == Rwx(perm)
    ensures Flags(Entry(page, perm)) == if V(perm) then perm else perm + 1
  {
    var f := if V(perm) then perm else perm + 1;
    if !V(perm) { EvenPlusOne(perm); }
    assert Entry(page, perm) == page * 1024 + f;
    FieldsOf(page, f);
  }

  lemma FieldsOf(page: nat, f: nat)
    requires f < 1024
    ensures var e := page * 1024 + f;
            && V(e) == V(f) && Page(e) == page && U(e) == U(f) && Rwx(e) == Rwx(f) && Flags(e) == f
  {
    Halves(page, f);
    Sixteenths(page, f);
    Mod2(page * 512, f);
    Mod8(page * 64, f / 2);
    Mod2(page * 32, f / 16);
  }

  lemma FirstBits(e: nat)
    ensures Blocks.BitOf(e, 0) <==> e % 2 == 1
    ensures Blocks.BitOf(e, 1) <==> (e / 2) % 2 == 1
    ensures Blocks.BitOf(e, 2) <==> (e / 4) % 2 == 1
    ensures Blocks.BitOf(e, 3) <==> (e / 8) % 2 == 1
    ensures Blocks.BitOf(e, 4) <==> (e / 16) % 2 == 1
  {
    assert Blocks.BitOf(e, 2) == Blocks.BitOf(e / 2 / 2, 0) && e / 2 / 2 == e / 4;
    assert Blocks.BitOf(e, 4) == Blocks.BitOf(e / 4, 2) && Blocks.BitOf(e, 3) == Blocks.BitOf(e / 4, 1);
    assert Blocks.BitOf(e / 4, 2) == Blocks.BitOf(e / 4 / 2 / 2, 0) && e / 4 / 2 / 2 == e / 16;
    assert Blocks.BitOf(e / 4, 1) == Blocks.BitOf(e / 4 / 2, 0) && e / 4 / 2 == e / 8;
  }

  lemma Octal(h: nat)
    ensures h % 8 != 0 <==> h % 2 == 1 || (h / 2) % 2 == 1 || (h / 4) % 2 == 1
  {
    var a, b := h / 8, h % 8;
    assert h == 8 * a + b;
    assert h / 2 == 4 * a + b / 2 && h / 4 == 2 * a + b / 4;
    Mod2(4 * a, b);
    Mod2(2 * a, b / 2);
    Mod2(a, b / 4);
    if b == 0 {} else if b == 1 {} else if b == 2 {} else if b == 3 {} else {}
  }

  /** PTE_V, PTE_R, PTE_W, PTE_X and PTE_U are the bits 0 to 4 (kernel/riscv.h:330-334). */
  lemma EntryBits(e: nat)
    ensures V(e) <==> Blocks.BitOf(e, 0)
    ensures Rwx(e) <==> Blocks.BitOf(e, 1) || Blocks.BitOf(e, 2) || Blocks.BitOf(e, 3)
    ensures U(e) <==> Blocks.BitOf(e, 4)
  {
    FirstBits(e);
    var h := e / 2;
    assert e / 4 == h / 2;
    assert e / 8 == h / 4;
    Octal(h);
  }

  /** Bits 0 to 4 of an entry are those of its flags. */
  lemma FlagBits(e: nat)
    ensures forall k :: 0 <= k <= 4 ==> (Blocks.BitOf(e, k) <==> Blocks.BitOf(Flags(e), k))
  {
    hide Blocks.BitOf;
    var p, f := Page(e), Flags(e);
    FirstBits(e);
    FirstBits(f);
    Quotients(p, f);
    Mod2(p * 512, f);
    Mod2(p * 256, f / 2);
    Mod2(p * 128, f / 4);
    Mod2(p * 64, f / 8);
    Mod2(p * 32, f / 16);
    forall k | 0 <= k <= 4 ensures Blocks.BitOf(e, k) <==> Blocks.BitOf(f, k) {
      if k == 0 {} else if k == 1 {} else if k == 2 {} else if k == 3 {} else {}
    }
  }

  lemma Quotients(p: nat, f: nat)
    ensures var e := p * 1024 + f;
            && e / 2 == p * 512 + f / 2 && e / 4 == p * 256 + f / 4
            && e / 8 == p * 128 + f / 8 && e / 16 == p * 64 + f / 16
  {
  }

  /** PX(level, va) on page numbers. */
  function Px(level: nat, v: nat): (i: nat)
    requires level <= 2
    ensures i < PTES
  {
    (if level == 0 then v else if level == 1 then v / 512 else v / 262144) % PTES
  }

  /** The part of the page number that selects a table of the given level. */
  function KeyOf(level: nat, v: nat): nat
    requires level <= 2
  {
    if level == 0 then v / 512 else if level == 1 then v / 262144 else v / 134217728
  }

  // ---- who uses each physical page ------------------------------------------

  /** A page is on the free list, just handed out by kalloc, used by the kernel (such as a
      trapframe), or a node of the tree with the given root: a table of level 2, 1 or 0, or
      a user data page (level -1). up is the table whose entry points to it, and key the
      number formed by the indices from the root down. */
  datatype Owner = Free | Taken | Kernel | Node(root: nat, level: int, key: nat, up: nat)

  type Tables = map<nat, seq<nat>>
  type Owners = map<nat, Owner>

  ghost predicate IsNode(w: Owners, p: nat, r: nat, level: int, key: nat) {
    p in w && w[p].Node? && w[p].root == r && w[p].level == level && w[p].key == key
  }

  ghost predicate IsTable(tab: Tables, p: nat) {
    p in tab && |tab[p]| == PTES
  }

  function EntryAt(tab: Tables, p: nat, i: nat): nat
    requires i < PTES
  {
    if p in tab && |tab[p]| == PTES then tab[p][i] else 0
  }

  ghost predicate KeyFits(level: int, key: nat) {
    && (level == 2 ==> key == 0) && (level == 1 ==> key < 256)
    && (level == 0 ==> key < 131072) && (level == -1 ==> key < MAXVPN)
  }

  /** What an entry at index i of table p may say, unless it is 0. */
  ghost predicate EntryOk(w: Owners, p: nat, i: nat, e: nat)
    requires p in w && w[p].Node?
  {
    var o := w[p];
    V(e) &&
    if o.level > 0 then
      Flags(e) == 1 && IsNode(w, Page(e), o.root, o.level - 1, o.key * 512 + i)
    else
      && Rwx(e)
      && (|| IsNode(w, Page(e), o.root, -1, o.key * 512 + i)
          || (!U(e) && (Page(e) in w ==> w[Page(e)] == Kernel)))
  }

  ghost predicate Down(tab: Tables, w: Owners, p: nat)
    requires p in w
  {
    w[p].Node? && w[p].level >= 0 ==>
      IsTable(tab, p) && forall i: nat :: i < PTES && EntryAt(tab, p, i) != 0 ==> EntryOk(w, p, i, EntryAt(tab, p, i))
  }

  ghost predicate Up(tab: Tables, w: Owners, q: nat)
    requires q in w
  {
    w[q].Node? ==>
      var o := w[q];
      && -1 <= o.level <= 2 && KeyFits(o.level, o.key)
      && (o.level == 2 ==> o.root == q)
      && (o.level < 2 ==>
            && IsNode(w, o.up, o.root, o.level + 1, o.key / 512) && IsTable(tab, o.up)
            && V(EntryAt(tab, o.up, o.key % 512)) && Page(EntryAt(tab, o.up, o.key % 512)) == q)
  }

  /** Every valid entry leads to a page that belongs exactly there, and every page of a tree
      is led to by the entry where it belongs: the tables are trees of distinct pages, and
      no user page is mapped twice. */
  ghost predicate Trees(tab: Tables, w: Owners) {
    (forall p :: p in w ==> Down(tab, w, p)) && (forall p :: p in w ==> Up(tab, w, p))
  }

  ghost predicate IsRoot(w: Owners, r: nat) {
    IsNode(w, r, r, 2, 0)
  }

  lemma {:induction false} NodeUnique(tab: Tables, w: Owners, p: nat, q: nat, r: nat, level: int, key: nat)
    requires Trees(tab, w)
    requires IsNode(w, p, r, level, key) && IsNode(w, q, r, level, key)
    ensures p == q
    decreases 2 - level
  {
    assert Up(tab, w, p) && Up(tab, w, q);
    if level < 2 {
      NodeUnique(tab, w, w[p].up, w[q].up, r, level + 1, key / 512);
    }
  }

  // ---- walking --------------------------------------------------------------

  datatype Option = None | Some(page: nat)

  /** The level-1 table for page v, if there is one. */
  function MidTable(tab: Tables, r: nat, v: nat): Option {
    var e := EntryAt(tab, r, Px(2, v));
    if V(e) then Some(Page(e)) else None
  }

  /** The level-0 table for page v, if there is one: what walk(r, v, 0) finds. */
  function LeafTable(tab: Tables, r: nat, v: nat): Option {
    match MidTable(tab, r, v)
    case None => None
    case Some(m) =>
      var e := EntryAt(tab, m, Px(1, v));
      if V(e) then Some(Page(e)) else None
  }

  /** The flat map: the entry for page v, 0 when no table holds one. */
  function Pte(tab: Tables, r: nat, v: nat): nat {
    match LeafTable(tab, r, v)
    case None => 0
    case Some(p) => EntryAt(tab, p, Px(0, v))
  }

  /** How many tables walk would have to add to reach page v. */
  ghost function Lacking(tab: Tables, r: nat, v: nat): nat {
    if LeafTable(tab, r, v).Some? then 0 else if MidTable(tab, r, v).Some? then 1 else 2
  }

  /** Page v is in a block of the given size that the pages a .. a+n-1 touch. */
  predicate Touches(size: nat, a: nat, n: nat, v: nat)
    requires size > 0
  {
    n > 0 && a / size <= v / size <= (a + n - 1) / size
  }

  /** From tab to tab', root got the tables that serve the pages a .. a+n-1, and no others. */
  ghost predicate Served(tab: Tables, tab': Tables, r: nat, a: nat, n: nat) {
    forall v: nat :: v < MAXVPN ==>
      && (LeafTable(tab', r, v).Some? <==> LeafTable(tab, r, v).Some? || Touches(512, a, n, v))
      && (MidTable(tab', r, v).Some? <==> MidTable(tab, r, v).Some? || Touches(262144, a, n, v))
  }

  /** The tables that page v needs, unless a page from a on has brought them already. */
  ghost function NewFor(tab: Tables, r: nat, a: nat, v: nat): nat {
    (if LeafTable(tab, r, v).None? && (v == a || v % 512 == 0) then 1 else 0) +
    (if MidTable(tab, r, v).None? && (v == a || v % 262144 == 0) then 1 else 0)
  }

  /** How many tables root lacks for the pages a .. a+n-1. */
  ghost function TablesFor(tab: Tables, r: nat, a: nat, n: nat): nat {
    if n == 0 then 0 else TablesFor(tab, r, a, n - 1) + NewFor(tab, r, a, a + n - 1)
  }

  lemma {:induction false} TablesGrow(tab: Tables, r: nat, a: nat, n: nat, k: nat)
    requires n <= k
    ensures TablesFor(tab, r, a, n) <= TablesFor(tab, r, a, k)
    decreases k
  {
    if n < k { TablesGrow(tab, r, a, n, k - 1); }
  }

  lemma NextTouched(size: nat, a: nat, n: nat)
    requires size == 512 || size == 262144
    ensures Touches(size, a, n, a + n) <==> n > 0 && (a + n) % size != 0
  {
  }

  /** What the next page lacks once the pages before it are served. */
  lemma NextLacks(tab: Tables, tab': Tables, r: nat, a: nat, n: nat)
    requires Served(tab, tab', r, a, n) && a + n < MAXVPN
    ensures Lacking(tab', r, a + n) == NewFor(tab, r, a, a + n)
  {
    hide Touches, LeafTable, MidTable;
    NextTouched(512, a, n);
    NextTouched(262144, a, n);
    assert (a + n) % 512 != 0 ==> (a + n) % 262144 != 0;
    LeafMeansMid(tab, r, a + n);
  }

  lemma LeafMeansMid(tab: Tables, r: nat, v: nat)
    ensures LeafTable(tab, r, v).Some? ==> MidTable(tab, r, v).Some?
  {
  }

  lemma TouchMore(size: nat, a: nat, n: nat, v: nat)
    requires size == 512 || size == 262144
    ensures Touches(size, a, n + 1, v) <==> Touches(size, a, n, v) || Touches(size, a + n, 1, v)
  {
    assert n > 0 ==> (a + n) / size <= (a + n - 1) / size + 1;
  }

  lemma ServedMore(tab: Tables, tab1: Tables, tab2: Tables, r: nat, a: nat, n: nat)
    requires Served(tab, tab1, r, a, n) && Served(tab1, tab2, r, a + n, 1)
    ensures Served(tab, tab2, r, a, n + 1)
  {
    forall v: nat | v < MAXVPN
      ensures LeafTable(tab2, r, v).Some? <==> LeafTable(tab, r, v).Some? || Touches(512, a, n + 1, v)
      ensures MidTable(tab2, r, v).Some? <==> MidTable(tab, r, v).Some? || Touches(262144, a, n + 1, v)
    {
      TouchMore(512, a, n, v);
      TouchMore(262144, a, n, v);
    }
    hide Touches, LeafTable, MidTable;
  }

  lemma ServedNone(tab: Tables, r: nat, a: nat)
    ensures Served(tab, tab, r, a, 0)
  {
  }

  lemma Keys(v: nat)
    requires v < MAXVPN
    ensures KeyOf(2, v) == 0
    ensures KeyOf(1, v) == KeyOf(2, v) * 512 + Px(2, v) && KeyOf(0, v) == KeyOf(1, v) * 512 + Px(1, v)
    ensures v == KeyOf(0, v) * 512 + Px(0, v)
    ensures KeyOf(0, v) / 512 == KeyOf(1, v) && KeyOf(0, v) % 512 == Px(1, v)
    ensures KeyOf(1, v) / 512 == 0 && KeyOf(1, v) % 512 == Px(2, v)
    ensures KeyFits(1, KeyOf(1, v)) && KeyFits(0, KeyOf(0, v))
  {
  }

  lemma MidTableIs(tab: Tables, w: Owners, r: nat, v: nat)
    requires Trees(tab, w) && IsRoot(w, r) && v < MAXVPN
    ensures MidTable(tab, r, v).Some? ==> IsNode(w, MidTable(tab, r, v).page, r, 1, KeyOf(1, v))
    ensures forall m :: IsNode(w, m, r, 1, KeyOf(1, v)) ==> MidTable(tab, r, v) == Some(m)
  {
    Keys(v);
    assert Down(tab, w, r);
    forall m | IsNode(w, m, r, 1, KeyOf(1, v)) ensures MidTable(tab, r, v) == Some(m) {
      assert Up(tab, w, m);
      assert Up(tab, w, w[m].up);
    }
  }

  /** The radix tree as a flat index: page v is served by the level-0 table number v / 512 of
      this root and by no other, whichever indices lead there. */
  lemma LeafTableIs(tab: Tables, w: Owners, r: nat, v: nat)
    requires Trees(tab, w) && IsRoot(w, r) && v < MAXVPN
    ensures LeafTable(tab, r, v).Some? ==> IsNode(w, LeafTable(tab, r, v).page, r, 0, v / 512)
    ensures forall p :: IsNode(w, p, r, 0, v / 512) ==> LeafTable(tab, r, v) == Some(p)
  {
    Keys(v);
    MidTableIs(tab, w, r, v);
    if MidTable(tab, r, v).Some? {
      assert Down(tab, w, MidTable(tab, r, v).page);
    }
    forall p | IsNode(w, p, r, 0, v / 512) ensures LeafTable(tab, r, v) == Some(p) {
      assert Up(tab, w, p);
    }
  }

  /** Two pages of two address spaces never share an entry. */
  lemma SlotsDiffer(tab: Tables, w: Owners, r: nat, v: nat, r': nat, v': nat)
    requires Trees(tab, w) && IsRoot(w, r) && IsRoot(w, r') && v < MAXVPN && v' < MAXVPN
    requires LeafTable(tab, r, v).Some? && LeafTable(tab, r, v) == LeafTable(tab, r', v') && Px(0, v) == Px(0, v')
    ensures r == r' && v == v'
  {
    LeafTableIs(tab, w, r, v);
    LeafTableIs(tab, w, r', v');
    Keys(v);
    Keys(v');
  }

  /** A user-accessible page is owned by its place in its address space. */
  lemma UserPageOwned(tab: Tables, w: Owners, r: nat, v: nat)
    requires Trees(tab, w) && IsRoot(w, r) && v < MAXVPN
    requires V(Pte(tab, r, v)) && U(Pte(tab, r, v))
    ensures IsNode(w, Page(Pte(tab, r, v)), r, -1, v)
  {
    LeafTableIs(tab, w, r, v);
    Keys(v);
    assert Down(tab, w, LeafTable(tab, r, v).page);
  }

  /** Every data page of a tree is mapped where it belongs. */
  lemma DataPageMapped(tab: Tables, w: Owners, r: nat, v: nat, q: nat)
    requires Trees(tab, w) && IsRoot(w, r) && IsNode(w, q, r, -1, v)
    ensures v < MAXVPN && V(Pte(tab, r, v)) && Page(Pte(tab, r, v)) == q
  {
    assert Up(tab, w, q);
    Keys(v);
    LeafTableIs(tab, w, r, v);
  }
}
