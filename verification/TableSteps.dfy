/** The single changes that kernel/vm.c makes to page tables, and what each does to the trees
    and to the flat map. */
module TableSteps {
  import opened PageTable

  function Put(tab: Tables, p: nat, i: nat, e: nat): (r: Tables)
    requires p in tab && |tab[p]| == PTES && i < PTES
    ensures r.Keys == tab.Keys && |r[p]| == PTES
    ensures forall x, j: nat :: j < PTES ==>
              EntryAt(r, x, j) == if x == p && j == i then e else EntryAt(tab, x, j)
  {
    var table: seq<nat> := tab[p];
    var changed: seq<nat> := table[i := e];
    tab[p := changed]
  }

  function Zeros(): (s: seq<nat>)
    ensures |s| == PTES && forall i :: 0 <= i < PTES ==> s[i] == 0
  {
    seq(PTES, _ => 0)
  }

  /** The address spaces. */
  ghost function Roots(w: Owners): set<nat> {
    set r | r in w && IsRoot(w, r)
  }

  /** The flat map after a change: page v of root r reads e, every other page of every
      address space reads what it did. */
  ghost predicate OnlyChanges(tab: Tables, tab': Tables, roots: set<nat>, r: nat, v: nat, e: nat) {
    forall r', v': nat :: r' in roots && v' < MAXVPN ==>
      Pte(tab', r', v') == if r' == r && v' == v then e else Pte(tab, r', v')
  }

  ghost predicate SameMap(tab: Tables, tab': Tables, roots: set<nat>) {
    forall r, v: nat :: r in roots && v < MAXVPN ==> Pte(tab', r, v) == Pte(tab, r, v)
  }

  /** A page that belongs to no tree and is mapped nowhere changes hands. */
  lemma Retag(tab: Tables, w: Owners, q: nat, o: Owner)
    requires Trees(tab, w) && q in w && !w[q].Node? && w[q] != Kernel && !o.Node?
    ensures Trees(tab, w[q := o])
  {
    var w' := w[q := o];
    forall p | p in w' ensures Down(tab, w', p) && Up(tab, w', p) {
      assert Down(tab, w, p) && Up(tab, w, p);
    }
  }

  // ---- a new table ----------------------------------------------------------

  ghost predicate CanLink(tab: Tables, w: Owners, p: nat, i: nat, q: nat) {
    && p in w && w[p].Node? && 1 <= w[p].level <= 2 && i < PTES
    && KeyFits(w[p].level - 1, w[p].key * 512 + i)
    && p in tab && |tab[p]| == PTES && !V(EntryAt(tab, p, i))
    && q in w && w[q] == Taken
  }

  ghost function Linked(tab: Tables, p: nat, i: nat, q: nat): Tables
    requires p in tab && |tab[p]| == PTES && i < PTES && q != p
  {
    Put(tab[q := Zeros()], p, i, Entry(q, 0))
  }

  ghost function LinkedOwners(w: Owners, p: nat, i: nat, q: nat): Owners
    requires p in w && w[p].Node?
  {
    w[q := Node(w[p].root, w[p].level - 1, w[p].key * 512 + i, p)]
  }

  lemma LinkDown(tab: Tables, w: Owners, p: nat, i: nat, q: nat, x: nat)
    requires Trees(tab, w) && CanLink(tab, w, p, i, q) && x in w
    ensures Down(Linked(tab, p, i, q), LinkedOwners(w, p, i, q), x)
  {
    var tab', w' := Linked(tab, p, i, q), LinkedOwners(w, p, i, q);
    EntryFields(q, 0);
    assert Down(tab, w, x);
    if w'[x].Node? && w'[x].level >= 0 && x != q {
      forall j: nat | j < PTES && EntryAt(tab', x, j) != 0 ensures EntryOk(w', x, j, EntryAt(tab', x, j)) {
        if x == p && j == i {
          assert EntryAt(tab', x, j) == Entry(q, 0);
        } else {
          assert EntryOk(w, x, j, EntryAt(tab, x, j));
        }
      }
    }
  }

  lemma LinkTrees(tab: Tables, w: Owners, p: nat, i: nat, q: nat)
    requires Trees(tab, w) && CanLink(tab, w, p, i, q)
    ensures Trees(Linked(tab, p, i, q), LinkedOwners(w, p, i, q))
  {
    var tab', w' := Linked(tab, p, i, q), LinkedOwners(w, p, i, q);
    EntryFields(q, 0);
    forall x | x in w' ensures Down(tab', w', x) {
      LinkDown(tab, w, p, i, q, x);
    }
    forall x | x in w' ensures Up(tab', w', x) {
      assert Up(tab, w, x);
    }
  }

  /** A new empty table changes no translation. */
  lemma LinkMap(tab: Tables, w: Owners, p: nat, i: nat, q: nat)
    requires Trees(tab, w) && CanLink(tab, w, p, i, q)
    ensures SameMap(tab, Linked(tab, p, i, q), Roots(w))
  {
    var tab', w' := Linked(tab, p, i, q), LinkedOwners(w, p, i, q);
    LinkTrees(tab, w, p, i, q);
    forall r, v: nat | r in Roots(w) && v < MAXVPN ensures Pte(tab', r, v) == Pte(tab, r, v) {
      LinkMapAt(tab, w, p, i, q, tab', w', r, v);
    }
  }

  lemma LinkMapAt(tab: Tables, w: Owners, p: nat, i: nat, q: nat, tab': Tables, w': Owners, r: nat, v: nat)
    requires Trees(tab, w) && CanLink(tab, w, p, i, q) && IsRoot(w, r) && v < MAXVPN
    requires tab' == Linked(tab, p, i, q) && w' == LinkedOwners(w, p, i, q) && Trees(tab', w')
    ensures Pte(tab', r, v) == Pte(tab, r, v)
  {
    LeafTableIs(tab, w, r, v);
    LeafTableIs(tab', w', r, v);
    hide Trees;
    forall l | IsNode(w, l, r, 0, v / 512) ensures IsNode(w', l, r, 0, v / 512) {
    }
    if LeafTable(tab', r, v).Some? && LeafTable(tab', r, v).page != q {
      assert IsNode(w, LeafTable(tab', r, v).page, r, 0, v / 512);
    }
  }

  // ---- a changed leaf entry ---------------------------------------------------

  /** Changing an entry of a level-0 table changes one translation, of one address space. */
  lemma LeafPut(tab: Tables, w: Owners, p: nat, r: nat, v: nat, e: nat, w': Owners)
    requires Trees(tab, w) && IsRoot(w, r) && v < MAXVPN && IsNode(w, p, r, 0, v / 512) && p in tab && |tab[p]| == PTES
    requires Trees(Put(tab, p, v % 512, e), w')
    requires forall x :: x in w && w[x].Node? && w[x].level >= 0 ==> x in w' && w'[x] == w[x]
    requires forall x :: x in w' && w'[x].Node? && w'[x].level >= 0 ==> x in w && w'[x] == w[x]
    ensures OnlyChanges(tab, Put(tab, p, v % 512, e), Roots(w), r, v, e)
  {
    var tab' := Put(tab, p, v % 512, e);
    forall r', v': nat | r' in Roots(w) && v' < MAXVPN
      ensures Pte(tab', r', v') == if r' == r && v' == v then e else Pte(tab, r', v')
    {
      LeafTableIs(tab, w, r', v');
      LeafTableIs(tab', w', r', v');
      LeafTableIs(tab, w, r, v);
      assert v == v / 512 * 512 + v % 512 && v' == v' / 512 * 512 + v' % 512;
      SameLeafTable(tab, w, tab', w', r', v');
    }
  }

  lemma SameLeafTable(tab: Tables, w: Owners, tab': Tables, w': Owners, r: nat, v: nat)
    requires Trees(tab, w) && Trees(tab', w') && IsRoot(w, r) && IsRoot(w', r) && v < MAXVPN
    requires forall x :: x in w && w[x].Node? && w[x].level >= 0 ==> x in w' && w'[x] == w[x]
    requires forall x :: x in w' && w'[x].Node? && w'[x].level >= 0 ==> x in w && w'[x] == w[x]
    ensures LeafTable(tab', r, v) == LeafTable(tab, r, v)
  {
    LeafTableIs(tab, w, r, v);
    LeafTableIs(tab', w', r, v);
    hide Trees;
    if LeafTable(tab, r, v).Some? {
      assert IsNode(w', LeafTable(tab, r, v).page, r, 0, v / 512);
    } else if LeafTable(tab', r, v).Some? {
      assert IsNode(w, LeafTable(tab', r, v).page, r, 0, v / 512);
    }
  }

  /** Who owns the page after entry e is written for page v in table p: a page handed out by
      kalloc becomes a data page of the tree. */
  ghost function MapOwners(w: Owners, p: nat, v: nat, e: nat, claim: bool): Owners
    requires p in w && w[p].Node?
  {
    if claim then w[Page(e) := Node(w[p].root, -1, v, p)] else w
  }

  ghost predicate CanMap(w: Owners, e: nat, claim: bool) {
    && V(e) && Rwx(e)
    && (if claim then Page(e) in w && w[Page(e)] == Taken
        else !U(e) && (Page(e) in w ==> w[Page(e)] == Kernel))
  }

  lemma MapTrees(tab: Tables, w: Owners, p: nat, r: nat, v: nat, e: nat, claim: bool)
    requires Trees(tab, w) && v < MAXVPN && IsNode(w, p, r, 0, v / 512) && p in tab && |tab[p]| == PTES
    requires !V(EntryAt(tab, p, v % 512)) && CanMap(w, e, claim)
    ensures Trees(Put(tab, p, v % 512, e), MapOwners(w, p, v, e, claim))
  {
    forall x | x in w ensures Down(Put(tab, p, v % 512, e), MapOwners(w, p, v, e, claim), x) {
      MapDown(tab, w, p, r, v, e, claim, x);
    }
    forall x | x in w ensures Up(Put(tab, p, v % 512, e), MapOwners(w, p, v, e, claim), x) {
      MapUp(tab, w, p, r, v, e, claim, x);
    }
    hide Down, Up;
  }

  lemma MapDown(tab: Tables, w: Owners, p: nat, r: nat, v: nat, e: nat, claim: bool, x: nat)
    requires Trees(tab, w) && v < MAXVPN && IsNode(w, p, r, 0, v / 512) && p in tab && |tab[p]| == PTES
    requires CanMap(w, e, claim) && x in w
    ensures Down(Put(tab, p, v % 512, e), MapOwners(w, p, v, e, claim), x)
  {
    assert v == v / 512 * 512 + v % 512;
    assert Down(tab, w, x);
  }

  lemma MapUp(tab: Tables, w: Owners, p: nat, r: nat, v: nat, e: nat, claim: bool, x: nat)
    requires Trees(tab, w) && v < MAXVPN && IsNode(w, p, r, 0, v / 512) && p in tab && |tab[p]| == PTES
    requires !V(EntryAt(tab, p, v % 512)) && CanMap(w, e, claim) && x in w
    ensures Up(Put(tab, p, v % 512, e), MapOwners(w, p, v, e, claim), x)
  {
    assert Up(tab, w, x);
  }

  /** Who owns the page after page v is unmapped: a data page of the tree is freed, or just
      taken out of the tree. */
  ghost function UnmapOwners(w: Owners, r: nat, v: nat, q: nat, o: Owner): Owners {
    if IsNode(w, q, r, -1, v) then w[q := o] else w
  }

  lemma UnmapTrees(tab: Tables, w: Owners, p: nat, r: nat, v: nat, o: Owner)
    requires Trees(tab, w) && v < MAXVPN && IsNode(w, p, r, 0, v / 512) && p in tab && |tab[p]| == PTES
    requires V(EntryAt(tab, p, v % 512)) && !o.Node? && o != Kernel
    ensures Trees(Put(tab, p, v % 512, 0), UnmapOwners(w, r, v, Page(EntryAt(tab, p, v % 512)), o))
  {
    var q := Page(EntryAt(tab, p, v % 512));
    var tab', w' := Put(tab, p, v % 512, 0), UnmapOwners(w, r, v, q, o);
    assert v == v / 512 * 512 + v % 512;
    forall x | x in w' ensures Down(tab', w', x) {
      UnmapDown(tab, w, p, r, v, o, x);
    }
    forall x | x in w' ensures Up(tab', w', x) {
      UnmapUp(tab, w, p, r, v, o, x);
    }
  }

  lemma UnmapDown(tab: Tables, w: Owners, p: nat, r: nat, v: nat, o: Owner, x: nat)
    requires Trees(tab, w) && v < MAXVPN && IsNode(w, p, r, 0, v / 512) && p in tab && |tab[p]| == PTES
    requires V(EntryAt(tab, p, v % 512)) && !o.Node? && o != Kernel && x in w
    ensures Down(Put(tab, p, v % 512, 0), UnmapOwners(w, r, v, Page(EntryAt(tab, p, v % 512)), o), x)
  {
    var q := Page(EntryAt(tab, p, v % 512));
    var tab', w' := Put(tab, p, v % 512, 0), UnmapOwners(w, r, v, q, o);
    assert Down(tab, w, x) && Up(tab, w, x);
    if w'[x].Node? && w'[x].level >= 0 {
      assert w'[x] == w[x];
      forall i: nat | i < PTES && EntryAt(tab', x, i) != 0 ensures EntryOk(w', x, i, EntryAt(tab', x, i)) {
        var e := EntryAt(tab, x, i);
        assert EntryOk(w, x, i, e);
        if Page(e) == q && IsNode(w, q, r, -1, v) {
          assert IsNode(w, q, w[x].root, -1, w[x].key * 512 + i);
          NodeUnique(tab, w, x, p, r, 0, v / 512);
          assert false;
        }
      }
    }
  }

  lemma UnmapUp(tab: Tables, w: Owners, p: nat, r: nat, v: nat, o: Owner, x: nat)
    requires Trees(tab, w) && v < MAXVPN && IsNode(w, p, r, 0, v / 512) && p in tab && |tab[p]| == PTES
    requires V(EntryAt(tab, p, v % 512)) && !o.Node? && o != Kernel && x in w
    ensures Up(Put(tab, p, v % 512, 0), UnmapOwners(w, r, v, Page(EntryAt(tab, p, v % 512)), o), x)
  {
    assert Up(tab, w, x);
  }

  /** *pte &= ~PTE_U */
  function Hidden(e: nat): nat { if U(e) then e - 16 else e }

  lemma HiddenFields(e: nat)
    ensures V(Hidden(e)) == V(e) && !U(Hidden(e)) && Rwx(Hidden(e)) == Rwx(e) && Page(Hidden(e)) == Page(e)
    ensures Flags(Hidden(e)) == if U(e) then Flags(e) - 16 else Flags(e)
  {
    if U(e) {
      var f, q := Flags(e), Page(e);
      assert e == q * 1024 + f;
      FieldsOf(q, f);
      LowFlags(f);
      FieldsOf(q, f - 16);
    }
  }

  lemma LowFlags(f: nat)
    requires f < 1024 && U(f)
    ensures 16 <= f && V(f - 16) == V(f) && !U(f - 16) && Rwx(f - 16) == Rwx(f)
  {
  }

  lemma HideTrees(tab: Tables, w: Owners, p: nat, r: nat, v: nat)
    requires Trees(tab, w) && v < MAXVPN && IsNode(w, p, r, 0, v / 512) && p in tab && |tab[p]| == PTES
    ensures Trees(Put(tab, p, v % 512, Hidden(EntryAt(tab, p, v % 512))), w)
  {
    var e := EntryAt(tab, p, v % 512);
    var tab' := Put(tab, p, v % 512, Hidden(e));
    HiddenFields(e);
    hide Hidden, V, U, Rwx, Page, Flags;
    forall x | x in w ensures Down(tab', w, x) {
      assert Down(tab, w, x);
    }
    forall x | x in w ensures Up(tab', w, x) {
      assert Up(tab, w, x);
    }
  }
}
