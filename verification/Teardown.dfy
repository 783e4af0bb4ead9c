/** Freeing an address space: freewalk, uvmfree and proc_freepagetable (kernel/vm.c:279-306,
    kernel/proc.c:207-214). */
module Teardown {
  import opened PageTable
  import opened TableSteps
  import opened PhysicalMemory
  import opened Paging
  import opened Mapping
  import opened UserSpace

  /** The key, at level t, of the table above a node of level l. */
  ghost function Above(l: int, key: nat, t: int): nat
    decreases t - l
  {
    if l >= t then key else Above(l + 1, key / 512, t)
  }

  /** A table of root in the subtree with this level and key. */
  ghost predicate Under(o: Owner, root: nat, level: int, key: nat) {
    o.Node? && o.root == root && 0 <= o.level <= level && Above(o.level, o.key, level) == key
  }

  /** A table below the first i entries of the subtree's top. */
  ghost predicate Before(o: Owner, root: nat, level: int, key: nat, i: nat) {
    Under(o, root, level, key) && o.level < level && Above(o.level, o.key, level - 1) % 512 < i
  }

  lemma {:induction false} AboveStep(l: int, key: nat, t: int)
    requires l < t
    ensures Above(l, key, t) == Above(l, key, t - 1) / 512
    decreases t - l
  {
    if l + 1 < t { AboveStep(l + 1, key / 512, t); }
  }

  /** The subtree below entry i. */
  lemma ChildTree(o: Owner, root: nat, level: nat, key: nat, i: nat)
    requires 0 < level && i < 512
    ensures Under(o, root, level - 1, key * 512 + i) ==>
              Before(o, root, level, key, i + 1) && !Before(o, root, level, key, i) && o.level < level
    ensures Before(o, root, level, key, i + 1) && !Before(o, root, level, key, i) ==>
              Under(o, root, level - 1, key * 512 + i)
    ensures Before(o, root, level, key, i) ==> Before(o, root, level, key, i + 1)
  {
    if o.Node? && o.level < level { AboveStep(o.level, o.key, level); }
  }

  ghost predicate NoLeaves(tab: Tables, w: Owners, root: nat) {
    forall p, i: nat :: p in w && w[p].Node? && w[p].root == root && w[p].level == 0 && i < PTES ==>
        EntryAt(tab, p, i) == 0
  }

  /** The subtree is still as it was in (tab, w). */
  ghost predicate Intact(tab: Tables, w: Owners, tab': Tables, w': Owners, root: nat, level: int, key: nat) {
    && w'.Keys == w.Keys
    && forall q :: q in w && Under(w[q], root, level, key) ==>
        w'[q] == w[q] && q in tab && q in tab' && tab'[q] == tab[q]
  }

  ghost predicate SameTables(tab: Tables, tab': Tables, q: nat) {
    (q in tab <==> q in tab') && (q in tab ==> tab'[q] == tab[q])
  }

  /** What the first i turns of freewalk's loop on table p have done. */
  ghost predicate Walking(tab: Tables, w: Owners, tab1: Tables, w1: Owners, tab2: Tables, w2: Owners,
                          p: nat, root: nat, level: int, key: nat, i: nat) {
    && w2.Keys == w1.Keys == w.Keys
    && (forall q :: q in w ==> w2[q] == if Before(w[q], root, level, key, i) then Free else w1[q])
    && (forall q :: q != p && !(q in w && Before(w[q], root, level, key, i)) ==> SameTables(tab1, tab2, q))
    && IsTable(tab2, p) && IsTable(tab, p)
    && (forall j: nat :: j < PTES ==> EntryAt(tab2, p, j) == if j < i then 0 else EntryAt(tab, p, j))
  }

  /** The subtree has been freed, and nothing else touched. */
  ghost predicate FreedUnder(w: Owners, tab1: Tables, w1: Owners, tab2: Tables, w2: Owners, root: nat, level: int,
                             key: nat) {
    && w2.Keys == w1.Keys == w.Keys
    && (forall q :: q in w ==> w2[q] == if Under(w[q], root, level, key) then Free else w1[q])
    && (forall q :: !(q in w && Under(w[q], root, level, key)) ==> SameTables(tab1, tab2, q))
  }

  lemma StartWalking(tab: Tables, w: Owners, tab1: Tables, w1: Owners, p: nat, root: nat, level: int, key: nat)
    requires Trees(tab, w) && IsNode(w, p, root, level, key) && 0 <= level
    requires Intact(tab, w, tab1, w1, root, level, key)
    ensures Walking(tab, w, tab1, w1, tab1, w1, p, root, level, key, 0)
  {
    assert Down(tab, w, p);
    assert Under(w[p], root, level, key);
  }

  /** The entry the loop looks at, and the subtree behind it. */
  lemma NextChild(tab: Tables, w: Owners, tab1: Tables, w1: Owners, tab2: Tables, w2: Owners,
                  p: nat, root: nat, level: int, key: nat, i: nat)
    requires Trees(tab, w) && IsNode(w, p, root, level, key) && 0 <= level <= 2 && i < PTES && NoLeaves(tab, w, root)
    requires Intact(tab, w, tab1, w1, root, level, key)
    requires Walking(tab, w, tab1, w1, tab2, w2, p, root, level, key, i)
    ensures var e := EntryAt(tab2, p, i);
            e != 0 ==> V(e) && !Rwx(e) && level > 0 && IsNode(w, Page(e), root, level - 1, key * 512 + i)
    ensures level > 0 ==> Intact(tab, w, tab2, w2, root, level - 1, key * 512 + i)
  {
    StillIntact(tab, w, tab1, w1, tab2, w2, p, root, level, key, i);
    WalkedEntryIs(tab, w, tab1, w1, tab2, w2, p, root, level, key, i);
    ChildOf(tab, w, p, root, level, key, i);
    hide Intact, Walking, NoLeaves, EntryAt;
  }

  lemma WalkedEntryIs(tab: Tables, w: Owners, tab1: Tables, w1: Owners, tab2: Tables, w2: Owners,
                      p: nat, root: nat, level: int, key: nat, i: nat)
    requires Walking(tab, w, tab1, w1, tab2, w2, p, root, level, key, i) && i < PTES
    ensures EntryAt(tab2, p, i) == EntryAt(tab, p, i)
  {
    hide Before;
  }

  /** A nonzero entry of a table leads to the subtree below it. */
  lemma ChildOf(tab: Tables, w: Owners, p: nat, root: nat, level: int, key: nat, i: nat)
    requires Trees(tab, w) && IsNode(w, p, root, level, key) && 0 <= level <= 2 && i < PTES && NoLeaves(tab, w, root)
    ensures var e := EntryAt(tab, p, i);
            e != 0 ==> V(e) && !Rwx(e) && level > 0 && IsNode(w, Page(e), root, level - 1, key * 512 + i)
  {
    assert Down(tab, w, p);
    var e := EntryAt(tab, p, i);
    if e != 0 {
      assert EntryOk(w, p, i, e);
      if level > 0 { TableEntry(e); }
    }
    hide Rwx, Flags;
  }

  lemma TableEntry(e: nat)
    requires Flags(e) == 1
    ensures !Rwx(e)
  {
    FieldsOf(Page(e), 1);
    assert e == Page(e) * 1024 + 1;
  }

  lemma StillIntact(tab: Tables, w: Owners, tab1: Tables, w1: Owners, tab2: Tables, w2: Owners,
                    p: nat, root: nat, level: int, key: nat, i: nat)
    requires IsNode(w, p, root, level, key) && 0 <= level <= 2 && i < PTES
    requires Intact(tab, w, tab1, w1, root, level, key)
    requires Walking(tab, w, tab1, w1, tab2, w2, p, root, level, key, i)
    ensures level > 0 ==> Intact(tab, w, tab2, w2, root, level - 1, key * 512 + i)
  {
    if level > 0 {
      forall q | q in w && Under(w[q], root, level - 1, key * 512 + i)
        ensures w2[q] == w[q] && q in tab && q in tab2 && tab2[q] == tab[q]
      {
        ChildTree(w[q], root, level, key, i);
        assert q != p;
        assert SameTables(tab1, tab2, q);
      }
    }
  }

  /** A subtree is behind an entry of the table above it. */
  lemma {:induction false} BehindEntry(tab: Tables, w: Owners, root: nat, level: int, key: nat, i: nat, p: nat, q: nat)
    requires Trees(tab, w) && IsNode(w, p, root, level, key) && 0 < level <= 2 && i < PTES
    requires q in w && Under(w[q], root, level - 1, key * 512 + i)
    ensures EntryAt(tab, p, i) != 0
    decreases level - w[q].level
  {
    assert Up(tab, w, q);
    if w[q].level == level - 1 {
      NodeUnique(tab, w, p, w[q].up, root, level, key);
    } else {
      BehindEntry(tab, w, root, level, key, i, p, w[q].up);
    }
  }

  lemma KeepOwners(w: Owners, tab: Tables, tab1: Tables, w1: Owners, tab2: Tables, w2: Owners, tab3: Tables, w3: Owners,
                   p: nat, root: nat, level: int, key: nat, i: nat, q: nat)
    requires 0 < level <= 2 && i < PTES && q in w
    requires Walking(tab, w, tab1, w1, tab2, w2, p, root, level, key, i)
    requires FreedUnder(w, tab2, w2, tab3, w3, root, level - 1, key * 512 + i)
    ensures w3[q] == if Before(w[q], root, level, key, i + 1) then Free else w1[q]
    ensures q != p && !Before(w[q], root, level, key, i + 1) ==> SameTables(tab1, tab3, q)
  {
    ChildTree(w[q], root, level, key, i);
    assert !Under(w[q], root, level - 1, key * 512 + i) ==> SameTables(tab2, tab3, q);
  }

  lemma KeepWalking(tab: Tables, w: Owners, tab1: Tables, w1: Owners, tab2: Tables, w2: Owners, tab3: Tables,
                    w3: Owners, tab4: Tables, p: nat, root: nat, level: int, key: nat, i: nat)
    requires Trees(tab, w) && IsNode(w, p, root, level, key) && 0 < level <= 2 && i < PTES
    requires Walking(tab, w, tab1, w1, tab2, w2, p, root, level, key, i)
    requires FreedUnder(w, tab2, w2, tab3, w3, root, level - 1, key * 512 + i)
    requires IsTable(tab3, p) ==> tab4 == Put(tab3, p, i, 0)
    ensures IsTable(tab3, p)
    ensures Walking(tab, w, tab1, w1, tab4, w3, p, root, level, key, i + 1)
  {
    hide Trees;
    assert !Under(w[p], root, level - 1, key * 512 + i);
    assert SameTables(tab2, tab3, p);
    assert tab3[p] == tab2[p];
    forall q | q !in w && q != p ensures SameTables(tab1, tab3, q) {
      assert SameTables(tab2, tab3, q);
    }
    forall q | q in w
      ensures w3[q] == if Before(w[q], root, level, key, i + 1) then Free else w1[q]
      ensures q != p && !Before(w[q], root, level, key, i + 1) ==> SameTables(tab1, tab3, q)
    {
      KeepOwners(w, tab, tab1, w1, tab2, w2, tab3, w3, p, root, level, key, i, q);
    }
    assert w3.Keys == w.Keys;
    forall q | q != p && !(q in w && Before(w[q], root, level, key, i + 1)) ensures SameTables(tab1, tab4, q) {
      assert SameTables(tab1, tab3, q);
    }
    forall j: nat | j < PTES ensures EntryAt(tab4, p, j) == if j < i + 1 then 0 else EntryAt(tab, p, j) {
      assert EntryAt(tab3, p, j) == EntryAt(tab2, p, j);
    }
    hide FreedUnder, Before, Under, SameTables;
  }

  lemma SkipEntry(tab: Tables, w: Owners, tab1: Tables, w1: Owners, tab2: Tables, w2: Owners,
                  p: nat, root: nat, level: int, key: nat, i: nat)
    requires Trees(tab, w) && IsNode(w, p, root, level, key) && 0 <= level <= 2 && i < PTES
    requires Walking(tab, w, tab1, w1, tab2, w2, p, root, level, key, i) && EntryAt(tab2, p, i) == 0
    ensures Walking(tab, w, tab1, w1, tab2, w2, p, root, level, key, i + 1)
  {
    forall q | q in w ensures Before(w[q], root, level, key, i + 1) == Before(w[q], root, level, key, i) {
      if level > 0 {
        ChildTree(w[q], root, level, key, i);
        if Under(w[q], root, level - 1, key * 512 + i) { BehindEntry(tab, w, root, level, key, i, p, q); }
      }
    }
  }

  lemma AllWalked(tab: Tables, w: Owners, tab1: Tables, w1: Owners, tab2: Tables, w2: Owners,
                  p: nat, root: nat, level: int, key: nat)
    requires Trees(tab, w) && IsNode(w, p, root, level, key) && 0 <= level <= 2
    requires Walking(tab, w, tab1, w1, tab2, w2, p, root, level, key, PTES)
    ensures FreedUnder(w, tab1, w1, tab2, w2[p := Free], root, level, key)
  {
    hide Trees, Before, Under, SameTables, EntryAt, Walking;
    forall q | q in w ensures Under(w[q], root, level, key) == (q == p || Before(w[q], root, level, key, PTES)) {
      UnderIs(tab, w, p, root, level, key, q);
    }
    WalkedFreed(tab, w, tab1, w1, tab2, w2, p, root, level, key);
  }

  lemma UnderIs(tab: Tables, w: Owners, p: nat, root: nat, level: int, key: nat, q: nat)
    requires Trees(tab, w) && IsNode(w, p, root, level, key) && 0 <= level <= 2 && q in w
    ensures Under(w[q], root, level, key) == (q == p || Before(w[q], root, level, key, PTES))
  {
    if Under(w[q], root, level, key) && w[q].level == level {
      NodeUnique(tab, w, p, q, root, level, key);
    }
    hide Trees;
  }

  lemma WalkedFreed(tab: Tables, w: Owners, tab1: Tables, w1: Owners, tab2: Tables, w2: Owners,
                    p: nat, root: nat, level: int, key: nat)
    requires Walking(tab, w, tab1, w1, tab2, w2, p, root, level, key, PTES) && p in w
    requires forall q :: q in w ==> Under(w[q], root, level, key) == (q == p || Before(w[q], root, level, key, PTES))
    ensures FreedUnder(w, tab1, w1, tab2, w2[p := Free], root, level, key)
  {
    hide Before, Under, SameTables, EntryAt;
  }

  /** kernel/vm.c:281-297: freewalk on a subtree without leaf entries frees each of its tables
      once and nothing else, and does not reach the panic (ok is false then). */
  method FreeWalk(m: Memory, p: nat, ghost tab: Tables, ghost w: Owners, ghost root: nat, ghost level: int,
                  ghost key: nat)
    returns (ok: bool)
    requires m.Pages() && Trees(tab, w) && NoLeaves(tab, w, root) && IsNode(w, p, root, level, key) && 0 <= level <= 2
    requires Intact(tab, w, m.tab, m.w, root, level, key)
    modifies m
    ensures m.Pages() && ok
    ensures FreedUnder(w, old(m.tab), old(m.w), m.tab, m.w, root, level, key)
    ensures SameBytes(old(m.mem), m.mem, m.w)
    decreases level
  {
    hide Trees, FreeOk, Filled, NoLeaves, Intact, Walking, FreedUnder, SameBytes, EntryAt, IsNode, Rwx, V;
    StartWalking(tab, w, m.tab, m.w, p, root, level, key);
    BytesSelf(m.mem, m.w);
    var i := 0;
    while i < 512
      invariant 0 <= i <= 512 && m.Pages()
      invariant Walking(tab, w, old(m.tab), old(m.w), m.tab, m.w, p, root, level, key, i)
      invariant SameBytes(old(m.mem), m.mem, m.w)
    {
      label before:
      NextChild(tab, w, old(m.tab), old(m.w), m.tab, m.w, p, root, level, key, i);
      var pte := EntryAt(m.tab, p, i);
      if V(pte) && !Rwx(pte) {
        NonZero(pte);
        ok := FreeWalk(m, Page(pte), tab, w, root, level - 1, key * 512 + i);
        MoreFreed(old(m.mem), old@before(m.mem), m.mem, old@before(m.w), m.w, w, old@before(m.tab), m.tab, root,
                  level - 1, key * 512 + i);
        KeepWalking(tab, w, old(m.tab), old(m.w), old@before(m.tab), old@before(m.w), m.tab, m.w,
                    if IsTable(m.tab, p) then Put(m.tab, p, i, 0) else m.tab, p, root, level, key, i);
        m.tab := Put(m.tab, p, i, 0);
      } else if V(pte) {
        NonZero(pte);
        assert false;
      } else {
        SkipEntry(tab, w, old(m.tab), old(m.w), m.tab, m.w, p, root, level, key, i);
      }
      i := i + 1;
    }
    label done:
    AllWalked(tab, w, old(m.tab), old(m.w), m.tab, m.w, p, root, level, key);
    TopInUse(tab, w, old(m.tab), old(m.w), m.tab, m.w, p, root, level, key);
    var freed := m.Kfree(p);
    BytesTwice(old(m.mem), old@done(m.mem), m.mem, old@done(m.w), m.w, p);
    ok := true;
  }

  lemma NonZero(e: nat)
    requires V(e)
    ensures e != 0
  {
  }

  lemma BytesSelf(mem: Bytes, w: Owners)
    ensures SameBytes(mem, mem, w)
  {
  }

  lemma BytesTwice(mem: Bytes, mem1: Bytes, mem2: Bytes, w1: Owners, w2: Owners, p: nat)
    requires SameBytes(mem, mem1, w1) && SameBytes(mem1, mem2, w2) && p in w1 && w2 == w1[p := Free] && Filled(mem1, w1)
    ensures SameBytes(mem, mem2, w2)
  {
  }

  lemma MoreFreed(mem: Bytes, mem1: Bytes, mem2: Bytes, w1: Owners, w2: Owners, w: Owners, tab1: Tables, tab2: Tables,
                  root: nat, level: int, key: nat)
    requires SameBytes(mem, mem1, w1) && SameBytes(mem1, mem2, w2) && Filled(mem1, w1)
    requires FreedUnder(w, tab1, w1, tab2, w2, root, level, key)
    ensures SameBytes(mem, mem2, w2)
  {
  }

  lemma TopInUse(tab: Tables, w: Owners, tab1: Tables, w1: Owners, tab2: Tables, w2: Owners, p: nat, root: nat,
                 level: int, key: nat)
    requires IsNode(w, p, root, level, key) && 0 <= level &&
             Walking(tab, w, tab1, w1, tab2, w2, p, root, level, key, PTES)
    requires Intact(tab, w, tab1, w1, root, level, key)
    ensures p in w2 && w2[p] != Free
  {
    assert !Before(w[p], root, level, key, PTES);
  }

  // ---- the whole address space ---------------------------------------------------

  const TRAMPOLINE: nat := MAXVPN - 1
  const TRAPFRAME: nat := MAXVPN - 2

  /** Every page of root's tree, tables and data, has gone back to the free list, and no
      other page changed hands. */
  ghost predicate AllFreed(w: Owners, w': Owners, root: nat) {
    w'.Keys == w.Keys && forall q :: q in w ==> w'[q] == if w[q].Node? && w[q].root == root then Free else w[q]
  }

  lemma {:induction false} EverythingUnder(tab: Tables, w: Owners, root: nat, q: nat)
    requires Trees(tab, w) && q in w && w[q].Node? && w[q].root == root && 0 <= w[q].level
    ensures Under(w[q], root, 2, 0)
    decreases 2 - w[q].level
  {
    assert Up(tab, w, q);
    if w[q].level < 2 { EverythingUnder(tab, w, root, w[q].up); }
  }

  /** The other trees do not notice that one is gone. */
  lemma TreesWithout(tab: Tables, w: Owners, tab': Tables, w': Owners, root: nat)
    requires Trees(tab, w) && AllFreed(w, w', root)
    requires forall q :: q in w && w[q].Node? && w[q].root != root ==> SameTables(tab, tab', q)
    ensures Trees(tab', w')
  {
    forall x | x in w' ensures Down(tab', w', x) {
      assert Down(tab, w, x);
      if w'[x].Node? && w'[x].level >= 0 {
        assert SameTables(tab, tab', x);
        forall i: nat | i < PTES && EntryAt(tab', x, i) != 0 ensures EntryOk(w', x, i, EntryAt(tab', x, i)) {
          assert EntryOk(w, x, i, EntryAt(tab, x, i));
        }
      }
    }
    forall x | x in w' ensures Up(tab', w', x) {
      assert Up(tab, w, x);
      if w'[x].Node? && w'[x].level < 2 { assert SameTables(tab, tab', w[x].up); }
    }
  }

  lemma NoLeavesLeft(tab: Tables, w: Owners, root: nat)
    requires Trees(tab, w) && IsRoot(w, root) && forall v: nat :: v < MAXVPN ==> !V(Pte(tab, root, v))
    ensures NoLeaves(tab, w, root)
    ensures forall q :: q in w && w[q].Node? && w[q].root == root ==> w[q].level >= 0
  {
    forall p, i: nat | p in w && w[p].Node? && w[p].root == root && w[p].level == 0 && i < PTES
      ensures EntryAt(tab, p, i) == 0 {
      assert Up(tab, w, p) && Down(tab, w, p);
      var v := w[p].key * 512 + i;
      assert v / 512 == w[p].key && v % 512 == i && v < MAXVPN;
      LeafTableIs(tab, w, root, v);
      assert Pte(tab, root, v) == EntryAt(tab, p, i);
    }
    forall q | q in w && w[q].Node? && w[q].root == root ensures w[q].level >= 0 {
      assert Up(tab, w, q);
      if w[q].level == -1 { DataPageMapped(tab, w, root, w[q].key, q); }
    }
  }

  lemma TreeIntact(tab: Tables, w: Owners, root: nat)
    requires Trees(tab, w)
    ensures Intact(tab, w, tab, w, root, 2, 0)
  {
    forall q | q in w && Under(w[q], root, 2, 0) ensures q in tab {
      assert Down(tab, w, q);
    }
  }

  /** The tables of an address space without leaf entries, freed. */
  method FreeTables(m: Memory, root: nat)
    requires m.Valid() && IsRoot(m.w, root)
    requires forall v: nat :: v < MAXVPN ==> !V(Pte(m.tab, root, v))
    modifies m
    ensures m.Valid() && AllFreed(old(m.w), m.w, root) && SameBytes(old(m.mem), m.mem, m.w)
  {
    hide FreeOk, Filled, SameBytes, Pte, V;
    NoLeavesLeft(m.tab, m.w, root);
    TreeIntact(m.tab, m.w, root);
    ghost var tab, w := m.tab, m.w;
    var ok := FreeWalk(m, root, m.tab, m.w, root, 2, 0);
    forall q | q in w ensures Under(w[q], root, 2, 0) == (w[q].Node? && w[q].root == root) {
      if w[q].Node? && w[q].root == root { EverythingUnder(tab, w, root, q); }
    }
    TreesWithout(tab, w, m.tab, m.w, root);
  }

  /** A process address space with n user pages: those, the trapframe and the trampoline are
      mapped and nothing else, and the user pages are its data pages. */
  ghost predicate ProcessSpace(tab: Tables, w: Owners, root: nat, n: nat) {
    && n <= TRAPFRAME
    && (forall v: nat :: v < MAXVPN ==> (V(Pte(tab, root, v)) <==> v < n || v >= TRAPFRAME))
    && OwnRange(tab, w, root, 0, n)
    && (forall q :: q in w && w[q].Node? && w[q].root == root && w[q].level == -1 ==> w[q].key < n)
  }

  ghost predicate MappedBelow(tab: Tables, w: Owners, root: nat, n: nat, top: nat) {
    && n <= TRAPFRAME <= top
    && (forall v: nat :: v < MAXVPN ==> (V(Pte(tab, root, v)) <==> v < n || TRAPFRAME <= v < top))
    && OwnRange(tab, w, root, 0, n)
    && (forall q :: q in w && w[q].Node? && w[q].root == root && w[q].level == -1 ==> w[q].key < n)
  }

  /** Entries that name a page in lent are entries of root, of the two pages at the top. */
  ghost predicate NamedBelow(tab: Tables, w: Owners, lent: set<nat>, root: nat, top: nat) {
    forall r, v: nat :: r in Roots(w) && v < MAXVPN && V(Pte(tab, r, v)) && Page(Pte(tab, r, v)) in lent ==>
      r == root && TRAPFRAME <= v < top
  }

  lemma UnmappedTop(tab: Tables, w: Owners, mem: Bytes, tab': Tables, w': Owners, mem': Bytes, root: nat, n: nat,
                    top: nat, lent: set<nat>)
    requires MappedBelow(tab, w, root, n, top + 1) && IsRoot(w, root) && TRAPFRAME <= top < MAXVPN
    requires NamedBelow(tab, w, lent, root, top + 1)
    requires Unmapping(tab, w, mem, tab', w', mem', root, top, 1, Taken)
    ensures w' == w && MappedBelow(tab', w', root, n, top) && NamedBelow(tab', w', lent, root, top)
  {
    assert root in Roots(w);
    forall q | q in w ensures w'[q] == w[q] {
    }
    assert w'.Keys == w.Keys;
  }

  method UnmapTop(m: Memory, root: nat, top: nat, ghost n: nat, ghost lent: set<nat>) returns (r: Result)
    requires m.ValidBut(lent) && IsRoot(m.w, root) && TRAPFRAME <= top < MAXVPN &&
             MappedBelow(m.tab, m.w, root, n, top + 1)
    requires NamedBelow(m.tab, m.w, lent, root, top + 1)
    modifies m
    ensures m.ValidBut(lent) && r.Ok? && m.w == old(m.w) && SameBytes(old(m.mem), m.mem, m.w)
    ensures MappedBelow(m.tab, m.w, root, n, top) && NamedBelow(m.tab, m.w, lent, root, top)
  {
    hide Trees, FreeOk, Filled, IsRoot, Last, View, Lent, NamedBelow;
    LastIs(top * PGSIZE, PGSIZE);
    assert (top * PGSIZE) / PGSIZE == top && (top * PGSIZE + PGSIZE - 1) / PGSIZE == top;
    r := UvmUnmap(m, root, top * PGSIZE, PGSIZE, false, lent);
    assert r.Ok?;
    UnmappedTop(old(m.tab), old(m.w), old(m.mem), m.tab, m.w, m.mem, root, n, top, lent);
  }

  lemma {:induction false} RootAbove(tab: Tables, w: Owners, q: nat)
    requires Trees(tab, w) && q in w && w[q].Node?
    ensures IsRoot(w, w[q].root)
    decreases 2 - w[q].level
  {
    assert Up(tab, w, q);
    if w[q].level < 2 { RootAbove(tab, w, w[q].up); }
  }

  /** A leaf entry is the translation of some page of some address space. */
  lemma LeafEntry(tab: Tables, w: Owners, p: nat, i: nat)
    requires Trees(tab, w) && p in w && w[p].Node? && w[p].level == 0 && i < PTES
    ensures IsRoot(w, w[p].root) && w[p].key * 512 + i < MAXVPN
    ensures EntryAt(tab, p, i) == Pte(tab, w[p].root, w[p].key * 512 + i)
  {
    RootAbove(tab, w, p);
    assert Up(tab, w, p);
    var v := w[p].key * 512 + i;
    assert v / 512 == w[p].key && v % 512 == i;
    LeafTableIs(tab, w, w[p].root, v);
  }

  /** Free pages that no entry names any more are just free. */
  lemma NoLongerLent(tab: Tables, w: Owners, lent: set<nat>, root: nat)
    requires Lent(w, lent) && Trees(tab, View(w, lent)) && NamedBelow(tab, w, lent, root, TRAPFRAME)
    ensures Trees(tab, w)
  {
    SameNodes(w, lent);
    forall x | x in w ensures Down(tab, w, x) {
      assert Down(tab, View(w, lent), x);
      if w[x].Node? && w[x].level >= 0 {
        forall i: nat | i < PTES && EntryAt(tab, x, i) != 0 ensures EntryOk(w, x, i, EntryAt(tab, x, i)) {
          NotLentHere(tab, w, lent, root, x, i);
        }
      }
    }
    forall x | x in w ensures Up(tab, w, x) {
      assert Up(tab, View(w, lent), x);
    }
  }

  lemma NotLentHere(tab: Tables, w: Owners, lent: set<nat>, root: nat, x: nat, i: nat)
    requires Lent(w, lent) && Trees(tab, View(w, lent)) && NamedBelow(tab, w, lent, root, TRAPFRAME)
    requires x in w && w[x].Node? && w[x].level >= 0 && i < PTES && EntryAt(tab, x, i) != 0
    ensures EntryOk(w, x, i, EntryAt(tab, x, i))
  {
    var e := EntryAt(tab, x, i);
    SameNodes(w, lent);
    assert View(w, lent)[x] == w[x];
    assert Down(tab, View(w, lent), x);
    assert EntryOk(View(w, lent), x, i, e);
    if w[x].level == 0 {
      LeafEntry(tab, View(w, lent), x, i);
      hide Trees, Pte;
      assert w[x].root in Roots(w);
      assert Page(e) !in lent;
    }
  }

  lemma AllUnmapped(tab: Tables, w: Owners, mem: Bytes, tab': Tables, w': Owners, mem': Bytes, root: nat, n: nat)
    requires MappedBelow(tab, w, root, n, TRAPFRAME) && IsRoot(w, root)
    requires Unmapping(tab, w, mem, tab', w', mem', root, 0, n, Free)
    ensures forall v: nat :: v < MAXVPN ==> !V(Pte(tab', root, v))
    ensures w'.Keys == w.Keys
    ensures forall q :: q in w ==> w'[q] == if w[q].Node? && w[q].root == root && w[q].level == -1 then Free else w[q]
  {
    assert root in Roots(w);
  }

  /** kernel/vm.c:302-306, for a nonempty address space. */
  method UvmFree(m: Memory, root: nat, sz: nat) returns (r: Result)
    requires m.Valid() && IsRoot(m.w, root) && 0 < sz && MappedBelow(m.tab, m.w, root, RoundUp(sz), TRAPFRAME)
    modifies m
    ensures m.Valid() && r.Ok? && AllFreed(old(m.w), m.w, root) && SameBytes(old(m.mem), m.mem, m.w)
  {
    hide Trees, FreeOk, Filled, Pte, OwnRange, Unmapping, RoundUp, Roots;
    RoundUpRange(0, sz);
    RoundUpRange(TRAPFRAME, sz);
    NoneMapped(m.tab, root, 0);
    MappedPages(m.tab, m.w, root, RoundUp(sz));
    r := UnmapBetween(m, root, 0, sz);
    AllUnmapped(old(m.tab), old(m.w), old(m.mem), m.tab, m.w, m.mem, root, RoundUp(sz));
    label unmapped:
    FreeTables(m, root);
    BytesAfterAll(old(m.tab), old(m.w), old(m.mem), old@unmapped(m.tab), old@unmapped(m.w), old@unmapped(m.mem), m.w,
                  m.mem, root, RoundUp(sz));
  }

  lemma MappedPages(tab: Tables, w: Owners, root: nat, n: nat)
    requires MappedBelow(tab, w, root, n, TRAPFRAME)
    ensures AllMapped(tab, root, 0, n) && OwnRange(tab, w, root, 0, n)
  {
  }

  lemma BytesAfterAll(tab: Tables, w: Owners, mem: Bytes, tab1: Tables, w1: Owners, mem1: Bytes, w2: Owners,
                      mem2: Bytes, root: nat, n: nat)
    requires Unmapping(tab, w, mem, tab1, w1, mem1, root, 0, n, Free) && Filled(mem1, w1)
    requires AllFreed(w1, w2, root) && SameBytes(mem1, mem2, w2)
    ensures SameBytes(mem, mem2, w2)
  {
  }

  /** kernel/proc.c:207-214. With sz > 0 every table and data page of the process goes back to
      the free list, once each, and no panic is reached. With sz == 0 uvmfree is skipped, so
      the tables keep their owner: they are never freed. The trapframe page may be free
      already, as long as only this address space still names it. */
  method ProcFreePageTable(m: Memory, root: nat, sz: nat, ghost lent: set<nat> := {}) returns (r: Result)
    requires m.ValidBut(lent) && IsRoot(m.w, root) && ProcessSpace(m.tab, m.w, root, RoundUp(sz))
    requires NamedBelow(m.tab, m.w, lent, root, MAXVPN)
    modifies m
    ensures m.Valid() && r.Ok?
    ensures sz > 0 ==> AllFreed(old(m.w), m.w, root)
    ensures sz == 0 ==> m.w == old(m.w)
    ensures SameBytes(old(m.mem), m.mem, m.w)
  {
    hide Trees, FreeOk, Filled, Pte, OwnRange, Roots, V, RoundUp, View, Lent, NamedBelow;
    r := UnmapTop(m, root, TRAMPOLINE, RoundUp(sz), lent);
    label one:
    r := UnmapTop(m, root, TRAPFRAME, RoundUp(sz), lent);
    NoLongerLent(m.tab, m.w, lent, root);
    BytesChain(old(m.mem), old@one(m.mem), m.mem, m.w, m.w);
    if sz > 0 {
      label two:
      r := UvmFree(m, root, sz);
      BytesChain(old(m.mem), old@two(m.mem), m.mem, old@two(m.w), m.w);
    }
  }

  /** A trapframe page, mapped by root's two top pages at most; 0 for none. */
  ghost predicate TrapframeOf(tab: Tables, w: Owners, root: nat, tf: nat) {
    tf != 0 ==> tf in w && w[tf] == Kernel && NamedBelow(tab, w, {tf}, root, MAXVPN)
  }

  ghost function Released(w: Owners, tf: nat): Owners { if tf == 0 then w else w[tf := Free] }

  ghost function LentFrame(tf: nat): set<nat> { if tf == 0 then {} else {tf} }

  /** kernel/proc.c:163-170, as wait, a failing fork and a failing allocproc run it: the trapframe
      is freed first, while the page table still maps it; either may be missing (0). Afterwards
      the trapframe and, if there is a page table and the process has a size, every table and
      data page are back on the free list, and no other page changed hands. */
  method FreeProc(m: Memory, root: nat, tf: nat, sz: nat) returns (r: Result)
    requires m.Valid() && TrapframeOf(m.tab, m.w, root, tf)
    requires root != 0 ==> IsRoot(m.w, root) && ProcessSpace(m.tab, m.w, root, RoundUp(sz))
    modifies m
    ensures m.Valid() && r.Ok?
    ensures root != 0 && sz > 0 ==> AllFreed(Released(old(m.w), tf), m.w, root)
    ensures root == 0 || sz == 0 ==> m.w == Released(old(m.w), tf)
    ensures SameBytes(old(m.mem), m.mem, m.w)
  {
    hide Trees, FreeOk, Filled, Pte, Roots, V, RoundUp, OwnRange, SameBytes;
    BytesSelf(m.mem, m.w);
    if tf != 0 {
      FrameLent(m.tab, m.w, root, tf);
      if root != 0 { FrameSpace(m.tab, m.w, root, tf, RoundUp(sz)); }
      var freed := m.Kfree(tf);
    } else {
      NothingLent(m.tab, m.w, root);
    }
    label freed:
    hide View, Lent, ProcessSpace, NamedBelow, AllFreed;
    if root != 0 {
      r := ProcFreePageTable(m, root, sz, LentFrame(tf));
      BytesOnwards(old(m.mem), old@freed(m.mem), m.mem, old@freed(m.w), m.w, root, sz);
    } else {
      NamedByNone(m.tab, m.w, LentFrame(tf));
      NoLongerLent(m.tab, m.w, LentFrame(tf), 0);
      r := Ok;
    }
  }

  lemma NothingLent(tab: Tables, w: Owners, root: nat)
    requires Trees(tab, w)
    ensures Lent(w, {}) && Trees(tab, View(w, {})) && NamedBelow(tab, w, {}, root, MAXVPN)
  {
  }

  /** Page 0 is the root of no address space. */
  lemma NamedByNone(tab: Tables, w: Owners, lent: set<nat>)
    requires NamedBelow(tab, w, lent, 0, MAXVPN) && 0 !in w
    ensures NamedBelow(tab, w, lent, 0, TRAPFRAME)
  {
  }

  lemma BytesOnwards(mem: Bytes, mem1: Bytes, mem2: Bytes, w1: Owners, w2: Owners, root: nat, sz: nat)
    requires SameBytes(mem, mem1, w1) && SameBytes(mem1, mem2, w2) && Filled(mem1, w1)
    requires if sz > 0 then AllFreed(w1, w2, root) else w2 == w1
    ensures SameBytes(mem, mem2, w2)
  {
  }

  /** With the trapframe freed the trees are as they were, but for the page lent. */
  lemma FrameLent(tab: Tables, w: Owners, root: nat, tf: nat)
    requires Trees(tab, w) && tf != 0 && TrapframeOf(tab, w, root, tf)
    ensures var w' := w[tf := Free];
            Lent(w', {tf}) && Trees(tab, View(w', {tf})) && NamedBelow(tab, w', {tf}, root, MAXVPN)
  {
    var w' := w[tf := Free];
    assert View(w', {tf}) == w;
    SameNodes(w', {tf});
  }

  lemma FrameSpace(tab: Tables, w: Owners, root: nat, tf: nat, n: nat)
    requires tf != 0 && TrapframeOf(tab, w, root, tf) && IsRoot(w, root) && ProcessSpace(tab, w, root, n)
    ensures IsRoot(w[tf := Free], root) && ProcessSpace(tab, w[tf := Free], root, n)
  {
  }

  lemma BytesChain(mem: Bytes, mem1: Bytes, mem2: Bytes, w1: Owners, w2: Owners)
    requires SameBytes(mem, mem1, w1) && SameBytes(mem1, mem2, w2) && Filled(mem1, w1) && w1.Keys == w2.Keys
    requires forall q :: q in w2 && w2[q] != Free ==> w1[q] != Free
    ensures SameBytes(mem, mem2, w2)
  {
  }
}
