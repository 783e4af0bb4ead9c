/** walk, and the tables it adds (kernel/vm.c:61-91). */
module Paging {
  import opened PageTable
  import opened TableSteps
  import opened PhysicalMemory

  const U64: nat := 0x1_0000_0000_0000_0000

  datatype Walked = Panicked | Missing | Slot(page: nat)

  datatype Result = Ok | NoMemory | Panic

  /** The only pages that changed hands were free and are now nodes of root's tree. */
  ghost predicate Grew(w: Owners, w': Owners, root: nat, low: int) {
    && w'.Keys == w.Keys
    && forall q :: q in w && w'[q] != w[q] ==>
         w[q] == Free && w'[q].Node? && w'[q].root == root && low <= w'[q].level <= 1
  }

  lemma GrewRoots(w: Owners, w': Owners, root: nat, low: int)
    requires Grew(w, w', root, low)
    ensures Roots(w') == Roots(w)
  {
    forall r | r in w ensures IsRoot(w', r) == IsRoot(w, r) {
    }
  }

  /** From one state of memory to the next: no translation changed, pages in use kept their
      contents, and the only pages that changed hands are new tables of root. */
  ghost predicate NewTablesOnly(tab: Tables, w: Owners, mem: map<nat, seq<Byte>>,
                                tab': Tables, w': Owners, mem': map<nat, seq<Byte>>, root: nat) {
    Grew(w, w', root, 0) && SameMap(tab, tab', Roots(w)) && SameBytes(mem, mem', w)
  }

  lemma NewTablesAgain(tab: Tables, w: Owners, mem: map<nat, seq<Byte>>, tab': Tables, w': Owners,
                       mem': map<nat, seq<Byte>>, tab'': Tables, w'': Owners, mem'': map<nat, seq<Byte>>, root: nat)
    requires NewTablesOnly(tab, w, mem, tab', w', mem', root) && NewTablesOnly(tab', w', mem', tab'', w'', mem'', root)
    requires Filled(mem', w')
    ensures NewTablesOnly(tab, w, mem, tab'', w'', mem'', root)
  {
    GrewRoots(w, w', root, 0);
    forall p | p in w && p in mem && p in mem'' && w[p] != Free ensures mem''[p] == mem[p] {
      assert w'[p] == w[p];
    }
  }

  lemma LinkedOnly(tab: Tables, w: Owners, mem: map<nat, seq<Byte>>, mem': map<nat, seq<Byte>>, free: seq<nat>,
                   p: nat, i: nat, q: nat)
    requires Trees(tab, w[q := Taken]) && q in w && w[q] == Free && CanLink(tab, w[q := Taken], p, i, q)
    requires FreeOk(free, w[q := Taken]) && SameBytes(mem, mem', w)
    ensures var w' := LinkedOwners(w[q := Taken], p, i, q);
            && Trees(Linked(tab, p, i, q), w') && FreeOk(free, w')
            && NewTablesOnly(tab, w, mem, Linked(tab, p, i, q), w', mem', w[p].root)
            && IsNode(w', q, w[p].root, w[p].level - 1, w[p].key * 512 + i)
  {
    var w1 := w[q := Taken];
    LinkTrees(tab, w1, p, i, q);
    LinkMap(tab, w1, p, i, q);
    StillFreeOk(free, w1, q, LinkedOwners(w1, p, i, q)[q]);
    assert Roots(w1) == Roots(w) by {
      forall r | r in w ensures IsRoot(w1, r) == IsRoot(w, r) { }
    }
  }

  /** kernel/vm.c:84-87: a new, empty table under entry i of table p. */
  method NewTable(m: Memory, p: nat, i: nat, ghost root: nat) returns (q: nat)
    requires m.Valid() && i < PTES && p in m.w && m.w[p].Node? && 1 <= m.w[p].level <= 2 && m.w[p].root == root
    requires IsTable(m.tab, p) && KeyFits(m.w[p].level - 1, m.w[p].key * 512 + i) && !V(EntryAt(m.tab, p, i))
    modifies m
    ensures m.Valid() && NewTablesOnly(old(m.tab), old(m.w), old(m.mem), m.tab, m.w, m.mem, root)
    ensures q == 0 <==> old(m.free) == []
    ensures q == 0 ==> m.tab == old(m.tab) && m.w == old(m.w) && m.free == old(m.free) && m.mem == old(m.mem)
    ensures q != 0 ==> IsNode(m.w, q, root, old(m.w)[p].level - 1, old(m.w)[p].key * 512 + i)
    ensures q != 0 ==> |old(m.free)| == |m.free| + 1
    ensures q != 0 ==> OneMore(old(m.w), m.w, q)
  {
    hide Trees, FreeOk, LinkedOwners, Put, OneMore;
    q := m.Kalloc();
    if q != 0 {
      m.SetPage(q, seq(PGSIZE, _ => 0));
      assert CanLink(m.tab, m.w, p, i, q);
      LinkedOnly(m.tab, old(m.w), old(m.mem), m.mem, m.free, p, i, q);
      m.tab := Put(m.tab[q := Zeros()], p, i, Entry(q, 0));
      OneMoreLinked(old(m.w), p, i, q);
      m.w := LinkedOwners(m.w, p, i, q);
    }
  }

  /** The free page q is now a node, and no other page changed hands. */
  ghost predicate OneMore(w: Owners, w': Owners, q: nat) {
    q in w && w[q] == Free && q in w' && w'[q].Node? && forall p :: p != q ==>
        (p in w <==> p in w') && (p in w ==> w'[p] == w[p])
  }

  lemma OneMoreLinked(w: Owners, p: nat, i: nat, q: nat)
    requires p in w && w[p].Node? && q in w && w[q] == Free
    ensures OneMore(w, LinkedOwners(w[q := Taken], p, i, q), q)
  {
  }

  /** The tables that serve page x after a new table of level 1 or 0 has been linked. */
  lemma LinkServes(tab: Tables, w: Owners, tab': Tables, w': Owners, root: nat, q: nat, x: nat)
    requires Trees(tab, w) && Trees(tab', w') && IsRoot(w, root) && IsRoot(w', root) && x < MAXVPN
    requires OneMore(w, w', q) && w'[q].root == root && 0 <= w'[q].level <= 1
    ensures LeafTable(tab', root, x).Some? <==>
              LeafTable(tab, root, x).Some? || (w'[q].level == 0 && w'[q].key == KeyOf(0, x))
    ensures MidTable(tab', root, x).Some? <==>
              MidTable(tab, root, x).Some? || (w'[q].level == 1 && w'[q].key == KeyOf(1, x))
  {
    LeafTableIs(tab, w, root, x);
    LeafTableIs(tab', w', root, x);
    MidTableIs(tab, w, root, x);
    MidTableIs(tab', w', root, x);
    hide Trees;
    ServesEither(w, w', root, q, 0, x / 512);
    ServesEither(w, w', root, q, 1, x / 262144);
    if LeafTable(tab, root, x).Some? { assert IsNode(w', LeafTable(tab, root, x).page, root, 0, x / 512); }
    if MidTable(tab, root, x).Some? { assert IsNode(w', MidTable(tab, root, x).page, root, 1, x / 262144); }
    if w'[q].level == 0 && w'[q].key == KeyOf(0, x) { assert IsNode(w', q, root, 0, x / 512); }
    if w'[q].level == 1 && w'[q].key == KeyOf(1, x) { assert IsNode(w', q, root, 1, x / 262144); }
  }

  lemma ServesEither(w: Owners, w': Owners, root: nat, q: nat, level: int, key: nat)
    requires OneMore(w, w', q)
    ensures forall p :: IsNode(w', p, root, level, key) <==>
              IsNode(w, p, root, level, key) || (p == q && IsNode(w', q, root, level, key))
  {
  }

  /** On the way to page v: root's tables are those of tab and those on the path to v so far. */
  ghost predicate Towards(tab: Tables, tab': Tables, root: nat, v: nat) {
    forall x: nat :: x < MAXVPN ==>
      && (LeafTable(tab', root, x).Some? <==>
            LeafTable(tab, root, x).Some? || (KeyOf(0, x) == KeyOf(0, v) && LeafTable(tab', root, v).Some?))
      && (MidTable(tab', root, x).Some? <==>
            MidTable(tab, root, x).Some? || (KeyOf(1, x) == KeyOf(1, v) && MidTable(tab', root, v).Some?))
  }

  lemma {:induction false} TowardsMore(tab: Tables, tab1: Tables, w1: Owners, tab2: Tables, w2: Owners, root: nat,
                                       v: nat, q: nat, level: nat)
    requires Towards(tab, tab1, root, v) && v < MAXVPN && 1 <= level <= 2
    requires Trees(tab1, w1) && Trees(tab2, w2) && IsRoot(w1, root) && IsRoot(w2, root)
    requires OneMore(w1, w2, q) && IsNode(w2, q, root, level - 1, KeyOf(level - 1, v))
    requires if level == 2 then MidTable(tab1, root, v).None?
             else MidTable(tab1, root, v).Some? && LeafTable(tab1, root, v).None?
    ensures Towards(tab, tab2, root, v) && Lacking(tab2, root, v) == Lacking(tab1, root, v) - 1
  {
    hide LeafTable, MidTable, Trees, OneMore, KeyOf;
    LinkServes(tab1, w1, tab2, w2, root, q, v);
    MidFirst(tab1, root, v);
    forall x: nat | x < MAXVPN
      ensures LeafTable(tab2, root, x).Some? <==>
                LeafTable(tab, root, x).Some? || (KeyOf(0, x) == KeyOf(0, v) && LeafTable(tab2, root, v).Some?)
      ensures MidTable(tab2, root, x).Some? <==>
                MidTable(tab, root, x).Some? || (KeyOf(1, x) == KeyOf(1, v) && MidTable(tab2, root, v).Some?)
    {
      LinkServes(tab1, w1, tab2, w2, root, q, x);
    }
  }

  lemma MidFirst(tab: Tables, root: nat, v: nat)
    ensures LeafTable(tab, root, v).Some? ==> MidTable(tab, root, v).Some?
  {
  }

  lemma Arrived(tab: Tables, tab': Tables, root: nat, v: nat)
    requires Towards(tab, tab', root, v) && LeafTable(tab', root, v).Some? && v < MAXVPN
    ensures Served(tab, tab', root, v, 1)
  {
    assert MidTable(tab', root, v).Some?;
    hide LeafTable, MidTable;
  }

  /** How far a walk to page v has come: memory changed by new tables on the path only, and
      every table added came off the free list. */
  ghost predicate WalkedTo(tab: Tables, w: Owners, mem: map<nat, seq<Byte>>, free: seq<nat>,
                           tab': Tables, w': Owners, mem': map<nat, seq<Byte>>, free': seq<nat>, root: nat, v: nat) {
    && NewTablesOnly(tab, w, mem, tab', w', mem', root) && Towards(tab, tab', root, v)
    && |free| + Lacking(tab', root, v) == |free'| + Lacking(tab, root, v)
  }

  /** One turn of walk's loop: the table that serves v one level down, found or added. */
  method Descend(m: Memory, p: nat, level: nat, v: nat, alloc: bool, ghost root: nat,
                 ghost tab: Tables, ghost w: Owners, ghost mem: map<nat, seq<Byte>>, ghost free: seq<nat>,
                 ghost lent: set<nat>)
    returns (q: nat)
    requires m.ValidBut(lent) && (alloc ==> lent == {}) && IsRoot(m.w, root) && v < MAXVPN && 1 <= level <= 2 &&
             IsNode(m.w, p, root, level, KeyOf(level, v))
    requires WalkedTo(tab, w, mem, free, m.tab, m.w, m.mem, m.free, root, v)
    modifies m
    ensures m.ValidBut(lent) && IsRoot(m.w, root) && WalkedTo(tab, w, mem, free, m.tab, m.w, m.mem, m.free, root, v)
    ensures !alloc ==> m.tab == old(m.tab) && m.w == old(m.w) && m.free == old(m.free) && m.mem == old(m.mem)
    ensures q == 0 ==>
              (alloc ==> m.free == []) && LeafTable(m.tab, root, v).None? && Pte(m.tab, root, v) == 0 &&
                Lacking(m.tab, root, v) > 0
    ensures q != 0 ==> IsNode(m.w, q, root, level - 1, KeyOf(level - 1, v))
  {
    hide Trees, FreeOk, NewTablesOnly, LeafTable, MidTable, Pte, Towards, Lacking, OneMore;
    hide KeyOf, Px, EntryAt, V, Page, IsTable, KeyFits;
    SameNodes(m.w, lent);
    WalkDown(m.tab, View(m.w, lent), root, v, p, level);
    var e := EntryAt(m.tab, p, Px(level, v));
    if V(e) { return Page(e); }
    if !alloc { return 0; }
    q := NewTable(m, p, Px(level, v), root);
    if q != 0 {
      NewTablesAgain(tab, w, mem, old(m.tab), old(m.w), old(m.mem), m.tab, m.w, m.mem, root);
      StillRoot(old(m.w), m.w, old(m.tab), m.tab, old(m.mem), m.mem, root);
      TowardsMore(tab, old(m.tab), old(m.w), m.tab, m.w, root, v, q, level);
    }
  }

  /** kernel/vm.c:73-91. walk finds the table slot for page v, whether or not it may add
      tables on the way; adding them changes no translation. */
  method Walk(m: Memory, root: nat, v: nat, alloc: bool, ghost lent: set<nat> := {}) returns (r: Walked)
    requires m.ValidBut(lent) && IsRoot(m.w, root) && (alloc ==> lent == {})
    modifies m
    ensures m.ValidBut(lent) && NewTablesOnly(old(m.tab), old(m.w), old(m.mem), m.tab, m.w, m.mem, root)
    ensures r.Panicked? <==> v >= MAXVPN
    ensures r.Slot? ==> IsNode(m.w, r.page, root, 0, v / 512) && LeafTable(m.tab, root, v) == PageTable.Some(r.page)
    ensures !alloc || v >= MAXVPN ==>
              m.tab == old(m.tab) && m.w == old(m.w) && m.free == old(m.free) && m.mem == old(m.mem)
    ensures r.Missing? ==> Pte(m.tab, root, v) == 0
    ensures !alloc && r.Missing? ==> LeafTable(m.tab, root, v).None?
    ensures alloc && r.Missing? ==> m.free == [] && |old(m.free)| < Lacking(old(m.tab), root, v)
    ensures alloc && r.Slot? ==> |old(m.free)| == |m.free| + Lacking(old(m.tab), root, v)
    ensures r.Slot? ==> Served(old(m.tab), m.tab, root, v, 1)
  {
    if v >= MAXVPN { return Panicked; }
    hide Trees, FreeOk, Filled, WalkedTo, LeafTable, Pte, KeyOf, IsNode, View, Lent;
    WalkStarts(m.tab, m.w, m.mem, m.free, root, v);
    hide IsRoot;
    var p, level := root, 2;
    while level > 0
      invariant 0 <= level <= 2
      invariant m.ValidBut(lent) && IsRoot(m.w, root) &&
                WalkedTo(old(m.tab), old(m.w), old(m.mem), old(m.free), m.tab, m.w, m.mem, m.free, root, v)
      invariant IsNode(m.w, p, root, level, KeyOf(level, v))
      invariant !alloc ==> m.tab == old(m.tab) && m.w == old(m.w) && m.free == old(m.free) && m.mem == old(m.mem)
    {
      p := Descend(m, p, level, v, alloc, root, old(m.tab), old(m.w), old(m.mem), old(m.free), lent);
      if p == 0 {
        WalkEnds(old(m.tab), old(m.w), old(m.mem), old(m.free), m.tab, m.w, m.mem, m.free, root, v);
        return Missing;
      }
      level := level - 1;
    }
    SameNodes(m.w, lent);
    LeafTableIs(m.tab, View(m.w, lent), root, v);
    WalkEnds(old(m.tab), old(m.w), old(m.mem), old(m.free), m.tab, m.w, m.mem, m.free, root, v);
    r := Slot(p);
  }

  lemma WalkStarts(tab: Tables, w: Owners, mem: map<nat, seq<Byte>>, free: seq<nat>, root: nat, v: nat)
    requires v < MAXVPN && IsRoot(w, root)
    ensures WalkedTo(tab, w, mem, free, tab, w, mem, free, root, v)
    ensures IsNode(w, root, root, 2, KeyOf(2, v)) && KeyOf(0, v) == v / 512
  {
    TowardsNone(tab, root, v);
    NewTablesNone(tab, w, mem, root);
  }

  lemma WalkEnds(tab: Tables, w: Owners, mem: map<nat, seq<Byte>>, free: seq<nat>,
                 tab': Tables, w': Owners, mem': map<nat, seq<Byte>>, free': seq<nat>, root: nat, v: nat)
    requires WalkedTo(tab, w, mem, free, tab', w', mem', free', root, v) && v < MAXVPN
    ensures NewTablesOnly(tab, w, mem, tab', w', mem', root)
    ensures LeafTable(tab', root, v).Some? ==>
              Served(tab, tab', root, v, 1) && |free| == |free'| + Lacking(tab, root, v)
    ensures LeafTable(tab', root, v).None? && free' == [] ==> |free| < Lacking(tab, root, v)
  {
    if LeafTable(tab', root, v).Some? {
      assert Lacking(tab', root, v) == 0;
      Arrived(tab, tab', root, v);
    }
    hide NewTablesOnly, Served, Towards, LeafTable;
  }

  lemma TowardsNone(tab: Tables, root: nat, v: nat)
    ensures Towards(tab, tab, root, v)
  {
    forall x: nat | x < MAXVPN
      ensures KeyOf(0, x) == KeyOf(0, v) && LeafTable(tab, root, v).Some? ==> LeafTable(tab, root, x).Some?
      ensures KeyOf(1, x) == KeyOf(1, v) && MidTable(tab, root, v).Some? ==> MidTable(tab, root, x).Some?
    {
      SamePath(tab, root, x, v);
    }
    hide LeafTable, MidTable;
  }

  /** Pages with the same key share their tables. */
  lemma SamePath(tab: Tables, root: nat, x: nat, v: nat)
    ensures KeyOf(1, x) == KeyOf(1, v) ==> MidTable(tab, root, x) == MidTable(tab, root, v)
    ensures KeyOf(0, x) == KeyOf(0, v) ==> LeafTable(tab, root, x) == LeafTable(tab, root, v)
  {
    assert KeyOf(0, x) / 512 == KeyOf(1, x) && KeyOf(0, v) / 512 == KeyOf(1, v);
  }

  lemma NewTablesNone(tab: Tables, w: Owners, mem: map<nat, seq<Byte>>, root: nat)
    ensures NewTablesOnly(tab, w, mem, tab, w, mem, root)
  {
  }

  lemma StillRoot(w: Owners, w': Owners, tab: Tables, tab': Tables, mem: map<nat, seq<Byte>>, mem': map<nat, seq<Byte>>,
                  root: nat)
    requires IsRoot(w, root) && NewTablesOnly(tab, w, mem, tab', w', mem', root)
    ensures IsRoot(w', root)
  {
  }

  /** One step of the walk: a valid entry leads to the table that serves v one level down;
      without one no table serves v. */
  lemma WalkDown(tab: Tables, w: Owners, root: nat, v: nat, p: nat, level: nat)
    requires Trees(tab, w) && IsRoot(w, root) && v < MAXVPN && 1 <= level <= 2
    requires IsNode(w, p, root, level, KeyOf(level, v))
    ensures p in w && w[p].Node? && w[p].root == root && w[p].level == level && w[p].key == KeyOf(level, v)
    ensures IsTable(tab, p) && KeyFits(level - 1, w[p].key * 512 + Px(level, v))
    ensures w[p].key * 512 + Px(level, v) == KeyOf(level - 1, v)
    ensures var e := EntryAt(tab, p, Px(level, v));
            if V(e) then IsNode(w, Page(e), root, level - 1, KeyOf(level - 1, v))
            else LeafTable(tab, root, v).None? && Pte(tab, root, v) == 0 && Lacking(tab, root, v) > 0 &&
                 (if level == 2 then MidTable(tab, root, v).None? else MidTable(tab, root, v).Some?)
  {
    Keys(v);
    assert Down(tab, w, p);
    if level == 2 {
      NodeUnique(tab, w, p, root, root, 2, 0);
    } else {
      MidTableIs(tab, w, root, v);
    }
  }
}
