/** create, link and unlink as steps on the whole file system (kernel/sysfile.c:177-352). The
    steps of sys_link are separate: between its two lock regions anything else may happen. */
module LinkCounts {
  import opened Directories

  /** pend: links counted in an inode by a sys_link that has not entered the name yet. */
  datatype State = State(ns: Nodes, root: nat, pend: seq<nat>)

  datatype Step =
    | Create(dp: nat, name: string, kind: Kind, i: nat)
    | LinkBegin(i: nat)
    | LinkEnd(i: nat, dp: nat, name: string)
    | LinkUndo(i: nat)
    | Unlink(dp: nat, k: nat)
    | Free(i: nat)

  // ---- steps ----------------------------------------------------------------------

  /** The parent directory of create, link and unlink has nlink > 0: it is not itself an
      unlinked directory. Free is the end of iput, when the last reference in memory goes. */
  ghost predicate Enabled(s: State, t: Step) {
    var ns, n := s.ns, |s.ns|;
    |s.pend| == n &&
    match t
    case Create(dp, name, kind, i) =>
      && dp < n && Live(ns[dp]) && Absent(ns[dp].entries, name)
      && 1 <= i < n && ns[i].kind == Unallocated && kind != Unallocated
    case LinkBegin(i) => 1 <= i < n && ns[i].kind != Dir && ns[i].kind != Unallocated
    case LinkEnd(i, dp, name) =>
      1 <= i < n && s.pend[i] > 0 && dp < n && Live(ns[dp]) && Absent(ns[dp].entries, name)
    case LinkUndo(i) => 1 <= i < n && s.pend[i] > 0 && ns[i].nlink > 0
    case Unlink(dp, k) =>
      && dp < n && Live(ns[dp]) && k < |ns[dp].entries| && ns[dp].entries[k].name != "."
      && ns[dp].entries[k].name != ".."
      && 1 <= ns[dp].entries[k].inum < n
      && (ns[ns[dp].entries[k].inum].kind == Dir ==> Empty(ns[ns[dp].entries[k].inum].entries))
    case Free(i) => 1 <= i < n && ns[i].nlink == 0
  }

  ghost function NewNode(kind: Kind, i: nat, dp: nat): Node {
    Node(kind, 1, if kind == Dir then [Entry(".", i), Entry("..", dp)] else [])
  }

  /** dirlink into d, which also gains a link if the new inode is a directory. */
  ghost function Entered(d: Node, name: string, i: nat, subdir: bool): Node {
    Node(d.kind, if subdir then d.nlink + 1 else d.nlink, Added(d.entries, Entry(name, i)))
  }

  ghost function Erased(d: Node, k: nat, subdir: bool): Node
    requires k < |d.entries|
  {
    Node(d.kind, if subdir && d.nlink > 0 then d.nlink - 1 else d.nlink, d.entries[k := Entry("", 0)])
  }

  ghost function Linked(d: Node, delta: int): Node {
    Node(d.kind, if d.nlink + delta >= 0 then d.nlink + delta else 0, d.entries)
  }

  ghost function Next(s: State, t: Step): State
    requires Enabled(s, t)
  {
    var ns := s.ns;
    match t
    case Create(dp, name, kind, i) =>
      s.(ns := ns[i := NewNode(kind, i, dp)][dp := Entered(ns[dp], name, i, kind == Dir)])
    case LinkBegin(i) => s.(ns := ns[i := Linked(ns[i], 1)], pend := s.pend[i := s.pend[i] + 1])
    case LinkEnd(i, dp, name) => s.(ns := ns[dp := Entered(ns[dp], name, i, false)], pend := s.pend[i := s.pend[i] - 1])
    case LinkUndo(i) => s.(ns := ns[i := Linked(ns[i], -1)], pend := s.pend[i := s.pend[i] - 1])
    case Unlink(dp, k) =>
      var ip := ns[dp].entries[k].inum;
      var ns1 := ns[dp := Erased(ns[dp], k, ns[ip].kind == Dir)];
      s.(ns := ns1[ip := Linked(ns1[ip], -1)])
    case Free(i) => s.(ns := ns[i := Node(Unallocated, 0, [])])
  }

  // ---- the invariant -----------------------------------------------------------------

  /** nlink counts the entries other than "." that name an inode in live directories. */
  ghost predicate CountOk(ns: Nodes, pend: seq<nat>, j: nat)
    requires j < |ns| == |pend|
  {
    ns[j].nlink == Names(ns, j, |ns|) + Dots(ns, j, |ns|) + pend[j]
  }

  ghost predicate DirOk(ns: Nodes, d: nat)
    requires d < |ns|
  {
    Live(ns[d]) ==>
      var es := ns[d].entries;
      && |es| >= 2 && es[0] == Entry(".", d) && d != 0 && es[1].name == ".." && 1 <= es[1].inum < |ns|
      && forall k :: 0 <= k < |es| ==> es[k].inum < |ns|
  }

  /** Whatever a live directory names is allocated, and a directory it names is live and
      leads back to it. */
  ghost predicate EntryOk(ns: Nodes, d: nat, k: nat)
    requires d < |ns|
  {
    Live(ns[d]) && 2 <= k < |ns[d].entries| && 0 < ns[d].entries[k].inum < |ns| ==>
      var x := ns[ns[d].entries[k].inum];
      x.kind != Unallocated && (x.kind == Dir ==> Live(x) && |x.entries| >= 2 && x.entries[1].inum == d)
  }

  ghost predicate NodeOk(ns: Nodes, root: nat, pend: seq<nat>, j: nat)
    requires j < |ns| == |pend|
  {
    && (Live(ns[j]) && j != root ==> Names(ns, j, |ns|) == 1)
    && (ns[j].kind == Unallocated ==> ns[j].nlink == 0)
    && (pend[j] > 0 ==> ns[j].kind != Dir && ns[j].kind != Unallocated)
  }

  ghost predicate Inv(s: State) {
    && |s.ns| == |s.pend| && 1 <= s.root < |s.ns| && Live(s.ns[s.root])
    && |s.ns[s.root].entries| >= 2 && s.ns[s.root].entries[1].inum == s.root
    && (forall j: nat :: 1 <= j < |s.ns| ==> CountOk(s.ns, s.pend, j))
    && (forall j: nat :: 1 <= j < |s.ns| ==> NodeOk(s.ns, s.root, s.pend, j))
    && (forall d: nat :: d < |s.ns| ==> DirOk(s.ns, d))
    && (forall d: nat, k: nat :: d < |s.ns| ==> EntryOk(s.ns, d, k))
  }

  // ---- what the invariant says ------------------------------------------------------------

  /** An inode that iput may free is named by no live directory, by name or by "..". */
  lemma FreedIsUnnamed(s: State, i: nat, d: nat, k: nat)
    requires Inv(s) && 1 <= i < |s.ns| && s.ns[i].nlink == 0
    requires d < |s.ns| && Live(s.ns[d]) && 1 <= k < |s.ns[d].entries|
    ensures s.ns[d].entries[k].inum != i
  {
    assert CountOk(s.ns, s.pend, i) && DirOk(s.ns, d);
    if k == 1 {
      DotsAtLeast(s.ns, i, d, |s.ns|);
    } else {
      NamesAtLeast(s.ns, i, d, |s.ns|);
      NamedSome(s.ns[d].entries, i);
    }
  }

  lemma {:induction false} DotsAtLeast(ns: Nodes, j: nat, d: nat, n: nat)
    requires d < n <= |ns|
    ensures Dots(ns, j, n) >= DotsOf(ns[d], j)
  {
    if d < n - 1 { DotsAtLeast(ns, j, d, n - 1); }
  }

  /** The panic in sys_unlink is out of reach: whatever a live directory names has a link. */
  lemma NamedHasLink(s: State, d: nat, k: nat)
    requires Inv(s) && d < |s.ns| && Live(s.ns[d]) && 2 <= k < |s.ns[d].entries| && s.ns[d].entries[k].inum != 0
    ensures s.ns[d].entries[k].inum < |s.ns| && s.ns[s.ns[d].entries[k].inum].nlink >= 1
  {
    assert DirOk(s.ns, d);
    var j := s.ns[d].entries[k].inum;
    assert CountOk(s.ns, s.pend, j);
    NamesAtLeast(s.ns, j, d, |s.ns|);
    NamedSome(s.ns[d].entries, j);
  }

  // ---- create and the end of link: one more name ---------------------------------------------

  /** A directory with one more entry. */
  lemma EnteredCounts(d: Node, name: string, i: nat, subdir: bool, j: nat)
    requires Live(d) && |d.entries| >= 2 && d.entries[0].inum != 0 && d.entries[1].inum != 0 && j != 0
    ensures NamesOf(Entered(d, name, i, subdir), j) == NamesOf(d, j) + (if i == j then 1 else 0)
    ensures DotsOf(Entered(d, name, i, subdir), j) == DotsOf(d, j)
  {
    NamedAdded(d.entries, Entry(name, i), j);
  }

  /** All references after create: the new name, and ".." of a new directory. */
  lemma CreateSums(ns: Nodes, dp: nat, name: string, kind: Kind, i: nat, j: nat)
    requires dp < |ns| && i < |ns| && i != dp && Live(ns[dp]) && DirOk(ns, dp) && ns[i].kind == Unallocated && j != 0
    ensures var ns' := ns[i := NewNode(kind, i, dp)][dp := Entered(ns[dp], name, i, kind == Dir)];
            && Names(ns', j, |ns|) == Names(ns, j, |ns|) + (if j == i then 1 else 0)
            && Dots(ns', j, |ns|) == Dots(ns, j, |ns|) + (if kind == Dir && j == dp then 1 else 0)
  {
    NamesPut(ns, i, NewNode(kind, i, dp), j, |ns|);
    NamesPut(ns[i := NewNode(kind, i, dp)], dp, Entered(ns[dp], name, i, kind == Dir), j, |ns|);
    EnteredCounts(ns[dp], name, i, kind == Dir, j);
  }

  /** The entries of a directory with one more: the old ones, and the new one behind "..". */
  lemma EnteredAt(d: Node, name: string, i: nat, subdir: bool, k: nat)
    requires |d.entries| >= 2 && d.entries[0].inum != 0 && d.entries[1].inum != 0 &&
             k < |Entered(d, name, i, subdir).entries|
    ensures var es := Entered(d, name, i, subdir).entries;
            |es| >= 2 && ((k < |d.entries| && es[k] == d.entries[k]) || (k >= 2 && es[k] == Entry(name, i)))
    ensures k < 2 ==> Entered(d, name, i, subdir).entries[k] == d.entries[k]
  {
  }

  lemma CreateEntries(ns: Nodes, dp: nat, name: string, kind: Kind, i: nat, d: nat, k: nat)
    requires dp < |ns| && 1 <= i < |ns| && i != dp && Live(ns[dp]) && DirOk(ns, dp) && ns[i].kind == Unallocated
    requires d < |ns| && DirOk(ns, d) && EntryOk(ns, d, k)
    requires kind != Unallocated
    ensures var ns' := ns[i := NewNode(kind, i, dp)][dp := Entered(ns[dp], name, i, kind == Dir)];
            DirOk(ns', d) && EntryOk(ns', d, k)
  {
    var x := Entered(ns[dp], name, i, kind == Dir);
    assert ns[dp].entries[0].inum != 0;
    forall m: nat | m < |x.entries| ensures x.entries[m].inum < |ns| { EnteredAt(ns[dp], name, i, kind == Dir, m); }
    EnteredAt(ns[dp], name, i, kind == Dir, 0);
    EnteredAt(ns[dp], name, i, kind == Dir, 1);
    if k < |x.entries| { EnteredAt(ns[dp], name, i, kind == Dir, k); }
    hide Entered;
  }

  lemma CreateInv(s: State, dp: nat, name: string, kind: Kind, i: nat)
    requires Inv(s) && Enabled(s, Create(dp, name, kind, i))
    ensures Inv(Next(s, Create(dp, name, kind, i)))
  {
    var ns, ns' := s.ns, Next(s, Create(dp, name, kind, i)).ns;
    assert DirOk(ns, dp) && NodeOk(ns, s.root, s.pend, i) && CountOk(ns, s.pend, i);
    hide Names, Dots, Entered;
    forall j: nat | 1 <= j < |ns| ensures CountOk(ns', s.pend, j) && NodeOk(ns', s.root, s.pend, j) {
      assert CountOk(ns, s.pend, j) && NodeOk(ns, s.root, s.pend, j);
      CreateSums(ns, dp, name, kind, i, j);
      EnteredKind(ns[dp], name, i, kind == Dir);
    }
    forall d: nat, k: nat | d < |ns| ensures EntryOk(ns', d, k) {
      assert DirOk(ns, d) && EntryOk(ns, d, k);
      CreateEntries(ns, dp, name, kind, i, d, k);
    }
    forall d: nat | d < |ns| ensures DirOk(ns', d) {
      assert DirOk(ns, d) && EntryOk(ns, d, 0);
      CreateEntries(ns, dp, name, kind, i, d, 0);
    }
    EnteredKind(ns[dp], name, i, kind == Dir);
    EnteredAt(ns[dp], name, i, kind == Dir, 1);
    hide CountOk, NodeOk, DirOk, EntryOk;
  }

  lemma EnteredKind(d: Node, name: string, i: nat, subdir: bool)
    ensures var x := Entered(d, name, i, subdir);
            x.kind == d.kind && x.nlink == d.nlink + (if subdir then 1 else 0) && |x.entries| >= |d.entries|
  {
  }

  lemma LinkEndInv(s: State, i: nat, dp: nat, name: string)
    requires Inv(s) && Enabled(s, LinkEnd(i, dp, name))
    ensures Inv(Next(s, LinkEnd(i, dp, name)))
  {
    var ns, s' := s.ns, Next(s, LinkEnd(i, dp, name));
    var x := Entered(ns[dp], name, i, false);
    assert DirOk(ns, dp) && NodeOk(ns, s.root, s.pend, i);
    hide Names, Dots, Entered;
    EnteredKind(ns[dp], name, i, false);
    forall j: nat | 1 <= j < |ns| ensures CountOk(s'.ns, s'.pend, j) && NodeOk(s'.ns, s.root, s'.pend, j) {
      assert CountOk(ns, s.pend, j) && NodeOk(ns, s.root, s.pend, j);
      NamesPut(ns, dp, x, j, |ns|);
      EnteredCounts(ns[dp], name, i, false, j);
    }
    forall d: nat | d < |ns| ensures DirOk(s'.ns, d) {
      assert DirOk(ns, d);
      LinkEndEntries(ns, i, dp, name, d, 0);
    }
    forall d: nat, k: nat | d < |ns| ensures EntryOk(s'.ns, d, k) {
      assert DirOk(ns, d) && EntryOk(ns, d, k);
      LinkEndEntries(ns, i, dp, name, d, k);
    }
    EnteredAt(ns[dp], name, i, false, 1);
    hide CountOk, NodeOk, DirOk, EntryOk;
  }

  lemma LinkEndEntries(ns: Nodes, i: nat, dp: nat, name: string, d: nat, k: nat)
    requires dp < |ns| && 1 <= i < |ns| && Live(ns[dp]) && DirOk(ns, dp) && ns[i].kind != Unallocated &&
             ns[i].kind != Dir
    requires d < |ns| && DirOk(ns, d)
    ensures DirOk(ns[dp := Entered(ns[dp], name, i, false)], d)
    ensures EntryOk(ns, d, k) ==> EntryOk(ns[dp := Entered(ns[dp], name, i, false)], d, k)
  {
    var x := Entered(ns[dp], name, i, false);
    forall m: nat | m < |x.entries| ensures x.entries[m].inum < |ns| { EnteredAt(ns[dp], name, i, false, m); }
    EnteredKind(ns[dp], name, i, false);
    EnteredAt(ns[dp], name, i, false, 0);
    EnteredAt(ns[dp], name, i, false, 1);
    if k < |x.entries| { EnteredAt(ns[dp], name, i, false, k); }
    hide Entered;
  }

  // ---- link counts of files -------------------------------------------------------------------

  /** A change to a node that is no directory changes no reference. */
  lemma FileSums(ns: Nodes, i: nat, x: Node, j: nat)
    requires i < |ns| && !Live(ns[i]) && !Live(x)
    ensures Names(ns[i := x], j, |ns|) == Names(ns, j, |ns|) && Dots(ns[i := x], j, |ns|) == Dots(ns, j, |ns|)
  {
    NamesPut(ns, i, x, j, |ns|);
  }

  lemma FileInv(s: State, i: nat, x: Node, p: nat)
    requires Inv(s) && 1 <= i < |s.ns| && s.ns[i].kind != Dir && s.ns[i].kind != Unallocated && x.kind == s.ns[i].kind
    requires x.nlink + s.pend[i] == s.ns[i].nlink + p
    ensures Inv(s.(ns := s.ns[i := x], pend := s.pend[i := p]))
  {
    var ns', pend' := s.ns[i := x], s.pend[i := p];
    forall j: nat | 1 <= j < |s.ns| ensures CountOk(ns', pend', j) && NodeOk(ns', s.root, pend', j) {
      assert CountOk(s.ns, s.pend, j) && NodeOk(s.ns, s.root, s.pend, j);
      FileSums(s.ns, i, x, j);
    }
    hide Names, Dots;
    forall d: nat | d < |s.ns| ensures DirOk(ns', d) { assert DirOk(s.ns, d); }
    forall d: nat, k: nat | d < |s.ns| ensures EntryOk(ns', d, k) { assert EntryOk(s.ns, d, k); }
    hide CountOk, NodeOk, DirOk, EntryOk;
  }

  /** iput's freeing of an inode without links. */
  lemma FreeInv(s: State, i: nat)
    requires Inv(s) && Enabled(s, Free(i))
    ensures Inv(Next(s, Free(i)))
  {
    var ns, ns' := s.ns, Next(s, Free(i)).ns;
    assert CountOk(ns, s.pend, i);
    forall j: nat | 1 <= j < |ns| ensures CountOk(ns', s.pend, j) && NodeOk(ns', s.root, s.pend, j) {
      assert CountOk(ns, s.pend, j) && NodeOk(ns, s.root, s.pend, j);
      FileSums(ns, i, Node(Unallocated, 0, []), j);
    }
    hide Names, Dots;
    forall d: nat | d < |ns| ensures DirOk(ns', d) { assert DirOk(ns, d); }
    forall d: nat, k: nat | d < |ns| ensures EntryOk(ns', d, k) {
      assert EntryOk(ns, d, k);
      if Live(ns[d]) && 2 <= k < |ns[d].entries| { FreedIsUnnamed(s, i, d, k); }
    }
    hide CountOk, NodeOk, DirOk, EntryOk;
  }

  // ---- unlink ---------------------------------------------------------------------------------

  /** x is a live directory whose ".." is dp. */
  ghost predicate Leads(x: Node, dp: nat) {
    Live(x) && |x.entries| >= 2 && x.entries[1].inum == dp
  }

  lemma ErasedCounts(d: Node, k: nat, subdir: bool, j: nat)
    requires Live(d) && 2 <= k < |d.entries| && j != 0 && (subdir ==> d.nlink > 1)
    ensures NamesOf(Erased(d, k, subdir), j) + (if d.entries[k].inum == j then 1 else 0) == NamesOf(d, j)
    ensures DotsOf(Erased(d, k, subdir), j) == DotsOf(d, j)
  {
    NamedPut(d.entries, k, Entry("", 0), j);
  }

  /** Nothing leads up to an empty directory but its own name. */
  lemma EmptyHasOneLink(s: State, dp: nat, k: nat)
    requires Inv(s) && Enabled(s, Unlink(dp, k))
    ensures k >= 2
    ensures var ip := s.ns[dp].entries[k].inum;
            s.ns[ip].kind == Dir ==> ip != dp && ip != s.root && s.ns[ip].nlink == 1 && Leads(s.ns[ip], dp)
  {
    var ns := s.ns;
    assert DirOk(ns, dp) && EntryOk(ns, dp, k);
    var ip := ns[dp].entries[k].inum;
    if ns[ip].kind == Dir {
      assert CountOk(ns, s.pend, ip) && NodeOk(ns, s.root, s.pend, ip);
      if Dots(ns, ip, |ns|) > 0 {
        var c := DotsSome(ns, ip, |ns|);
        assert DirOk(ns, c);
        ChildIsNamed(s, c, ip);
        assert false;
      }
    }
  }

  /** A live directory other than the root has a name in the directory its ".." names. */
  lemma ChildIsNamed(s: State, c: nat, p: nat)
    requires Inv(s) && c < |s.ns| && p < |s.ns| && DotsOf(s.ns[c], p) > 0 && c != s.root && c != 0
    ensures !Empty(s.ns[p].entries)
  {
    assert NodeOk(s.ns, s.root, s.pend, c) && DirOk(s.ns, c);
    var d := NamesSome(s.ns, c, |s.ns|);
    NamedSome(s.ns[d].entries, c);
    var k: nat :| 2 <= k < |s.ns[d].entries| && s.ns[d].entries[k].inum == c;
    assert EntryOk(s.ns, d, k);
  }

  /** A directory that holds a subdirectory has more than one link. */
  lemma ParentKeepsLink(s: State, dp: nat, ip: nat)
    requires Inv(s) && 1 <= dp < |s.ns| && ip < |s.ns| && ip != dp && Live(s.ns[dp]) && ip != s.root
    requires Live(s.ns[ip]) && |s.ns[ip].entries| >= 2 && s.ns[ip].entries[1].inum == dp
    ensures s.ns[dp].nlink > 1
  {
    var ns := s.ns;
    assert CountOk(ns, s.pend, dp) && NodeOk(ns, s.root, s.pend, dp);
    if dp == s.root {
      DotsTwo(ns, dp, ip, dp, |ns|);
    } else {
      DotsAtLeast(ns, dp, ip, |ns|);
    }
  }

  lemma {:induction false} DotsTwo(ns: Nodes, j: nat, a: nat, b: nat, n: nat)
    requires a < n <= |ns| && b < n && a != b
    ensures Dots(ns, j, n) >= DotsOf(ns[a], j) + DotsOf(ns[b], j)
  {
    if a == n - 1 {
      DotsAtLeast(ns, j, b, n - 1);
    } else if b == n - 1 {
      DotsAtLeast(ns, j, a, n - 1);
    } else {
      DotsTwo(ns, j, a, b, n - 1);
    }
  }

  lemma EmptyNames(es: seq<Entry>, j: nat)
    requires Empty(es) && j != 0
    ensures Named(es, j) == 0
  {
    NamedSome(es, j);
  }

  /** All references after unlink. */
  lemma UnlinkSums(s: State, dp: nat, k: nat, j: nat)
    requires Inv(s) && Enabled(s, Unlink(dp, k)) && j != 0
    ensures var ip, ns' := s.ns[dp].entries[k].inum, Next(s, Unlink(dp, k)).ns;
            && Names(ns', j, |s.ns|) + (if j == ip then 1 else 0) == Names(s.ns, j, |s.ns|)
            && Dots(ns', j, |s.ns|) + (if s.ns[ip].kind == Dir && j == dp then 1 else 0) == Dots(s.ns, j, |s.ns|)
    ensures s.ns[s.ns[dp].entries[k].inum].kind == Dir ==> s.ns[dp].nlink > 1
  {
    var ns := s.ns;
    var ip := ns[dp].entries[k].inum;
    EmptyHasOneLink(s, dp, k);
    assert DirOk(ns, dp);
    var subdir := ns[ip].kind == Dir;
    if subdir {
      ParentKeepsLink(s, dp, ip);
      EmptyNames(ns[ip].entries, j);
    }
    var ns1 := ns[dp := Erased(ns[dp], k, subdir)];
    NamesPut(ns, dp, Erased(ns[dp], k, subdir), j, |ns|);
    ErasedCounts(ns[dp], k, subdir, j);
    NamesPut(ns1, ip, Linked(ns1[ip], -1), j, |ns|);
  }

  lemma UnlinkCounts(s: State, dp: nat, k: nat, j: nat)
    requires Inv(s) && Enabled(s, Unlink(dp, k)) && 1 <= j < |s.ns|
    ensures CountOk(Next(s, Unlink(dp, k)).ns, s.pend, j) && NodeOk(Next(s, Unlink(dp, k)).ns, s.root, s.pend, j)
  {
    var ip := s.ns[dp].entries[k].inum;
    assert CountOk(s.ns, s.pend, j) && NodeOk(s.ns, s.root, s.pend, j);
    UnlinkSums(s, dp, k, j);
    EmptyHasOneLink(s, dp, k);
    NamedHasLink(s, dp, k);
    hide Names, Dots, DirOk, EntryOk;
  }

  lemma UnlinkEntries(s: State, dp: nat, k: nat, d: nat, m: nat)
    requires Inv(s) && Enabled(s, Unlink(dp, k)) && d < |s.ns|
    ensures DirOk(Next(s, Unlink(dp, k)).ns, d) && EntryOk(Next(s, Unlink(dp, k)).ns, d, m)
  {
    var ns, ns' := s.ns, Next(s, Unlink(dp, k)).ns;
    var ip := ns[dp].entries[k].inum;
    assert DirOk(ns, d) && EntryOk(ns, d, m) && DirOk(ns, dp);
    EmptyHasOneLink(s, dp, k);
    UnlinkSums(s, dp, k, ip);
    if Live(ns'[d]) && 2 <= m < |ns'[d].entries| && ns[ip].kind == Dir && ns'[d].entries[m].inum == ip {
      assert NodeOk(ns, s.root, s.pend, ip);
      NamesAtLeast(ns', ip, d, |ns|);
      NamedSome(ns'[d].entries, ip);
      assert false;
    }
    hide Names, Dots;
  }

  lemma UnlinkInv(s: State, dp: nat, k: nat)
    requires Inv(s) && Enabled(s, Unlink(dp, k))
    ensures Inv(Next(s, Unlink(dp, k)))
  {
    var ns' := Next(s, Unlink(dp, k)).ns;
    UnlinkRoot(s, dp, k);
    forall j: nat | 1 <= j < |s.ns| ensures CountOk(ns', s.pend, j) { UnlinkCounts(s, dp, k, j); }
    forall j: nat | 1 <= j < |s.ns| ensures NodeOk(ns', s.root, s.pend, j) { UnlinkCounts(s, dp, k, j); }
    forall d: nat | d < |s.ns| ensures DirOk(ns', d) { UnlinkEntries(s, dp, k, d, 0); }
    forall d: nat, m: nat | d < |s.ns| ensures EntryOk(ns', d, m) { UnlinkEntries(s, dp, k, d, m); }
    hide CountOk, NodeOk, DirOk, EntryOk, Enabled;
  }

  lemma UnlinkRoot(s: State, dp: nat, k: nat)
    requires Inv(s) && Enabled(s, Unlink(dp, k))
    ensures var ns' := Next(s, Unlink(dp, k)).ns;
            |ns'| == |s.ns| && Live(ns'[s.root]) && |ns'[s.root].entries| >= 2 && ns'[s.root].entries[1].inum == s.root
  {
    EmptyHasOneLink(s, dp, k);
    UnlinkSums(s, dp, k, 1);
    assert DirOk(s.ns, dp);
  }

  // ---- every step, every run -----------------------------------------------------------------

  lemma StepInv(s: State, t: Step)
    requires Inv(s) && Enabled(s, t)
    ensures Inv(Next(s, t))
  {
    match t
    case Create(dp, name, kind, i) => CreateInv(s, dp, name, kind, i);
    case LinkBegin(i) => FileInv(s, i, Linked(s.ns[i], 1), s.pend[i] + 1);
    case LinkEnd(i, dp, name) => LinkEndInv(s, i, dp, name);
    case LinkUndo(i) =>
      assert NodeOk(s.ns, s.root, s.pend, i);
      FileInv(s, i, Linked(s.ns[i], -1), s.pend[i] - 1);
    case Unlink(dp, k) => UnlinkInv(s, dp, k);
    case Free(i) => FreeInv(s, i);
  }

  /** The file system that mkfs makes: a root directory that is its own parent. */
  ghost predicate Init(s: State) {
    && |s.ns| == |s.pend| && 1 <= s.root < |s.ns|
    && s.ns[s.root] == Node(Dir, 1, [Entry(".", s.root), Entry("..", s.root)])
    && (forall j: nat :: j < |s.ns| && j != s.root ==> s.ns[j] == Node(Unallocated, 0, []))
    && (forall j: nat :: j < |s.pend| ==> s.pend[j] == 0)
  }

  lemma {:induction false} InitSums(s: State, j: nat, n: nat)
    requires Init(s) && n <= |s.ns|
    ensures Names(s.ns, j, n) == 0 && Dots(s.ns, j, n) == if j == s.root && s.root < n then 1 else 0
  {
    if n > 0 { InitSums(s, j, n - 1); }
  }

  lemma InitInv(s: State)
    requires Init(s)
    ensures Inv(s)
  {
    forall j: nat | 1 <= j < |s.ns| ensures CountOk(s.ns, s.pend, j) && NodeOk(s.ns, s.root, s.pend, j) {
      InitSums(s, j, |s.ns|);
    }
  }

  ghost predicate Run(ss: seq<State>, ts: seq<Step>) {
    && |ss| == |ts| + 1 && Init(ss[0])
    && forall i :: 0 <= i < |ts| ==> Enabled(ss[i], ts[i]) && ss[i + 1] == Next(ss[i], ts[i])
  }

  /** In every run of creates, links, unlinks and frees, with sys_link interleaved with
      anything, link counts are exact. */
  lemma {:induction false} RunInv(ss: seq<State>, ts: seq<Step>, n: nat)
    requires Run(ss, ts) && n < |ss|
    ensures Inv(ss[n])
  {
    if n == 0 {
      InitInv(ss[0]);
    } else {
      RunInv(ss, ts, n - 1);
      hide Inv, Enabled, Next;
      StepInv(ss[n - 1], ts[n - 1]);
    }
  }

  // ---- the system calls ----------------------------------------------------------------------

  /** What create returns: a new inode, the one that has the name already, nothing; or the
      panic of ialloc, or of dirlink. */
  datatype Created = New(i: nat) | There(i: nat) | Taken | NoInodes | DirFull

  datatype Linking = Done | Refused | Full

  /** The tree, changed by one call at a time. Only nodes is real; pend is 0 between calls. */
  class Tree {
    var ns: Nodes
    const root: nat
    ghost var pend: seq<nat>

    ghost function St(): State
      reads this
    {
      State(ns, root, pend)
    }

    ghost predicate Valid()
      reads this
    {
      Inv(St())
    }

    constructor (size: nat)
      requires size >= 2
      ensures Valid() && |ns| == size && root == 1
    {
      root := 1;
      ns := seq(size, i => if i == 1 then Node(Dir, 1, [Entry(".", 1), Entry("..", 1)]) else Node(Unallocated, 0, []));
      pend := seq(size, _ => 0);
      new;
      InitInv(St());
    }

    /** sys_unlink once dp is known and locked (kernel/sysfile.c:269-306): succeeds exactly
        when the name is there, is not "." or "..", and is not a directory in use. */
    method SysUnlink(dp: nat, name: string) returns (ok: bool, ghost k: nat)
      requires Valid() && dp < |ns| && Live(ns[dp])
      modifies this`ns
      ensures Valid()
      ensures ok ==> name != "." && name != ".." && old(FirstNamed(ns[dp].entries, name, k))
      ensures ok ==> Enabled(old(St()), Unlink(dp, k)) && St() == Next(old(St()), Unlink(dp, k))
      ensures !ok ==> ns == old(ns)
      ensures !ok ==> name == "." || name == ".." || Absent(ns[dp].entries, name) || InUse(ns, dp, name, k)
    {
      k := 0;
      if name == "." || name == ".." { return false, k; }
      var j := DirLookup(ns[dp].entries, name);
      k := j;
      if j == |ns[dp].entries| { return false, k; }
      assert DirOk(ns, dp);
      var ip := ns[dp].entries[j].inum;
      if ns[ip].kind == Dir {
        var empty := IsDirEmpty(ns[ip].entries);
        if !empty { return false, k; }
      }
      EmptyHasOneLink(St(), dp, j);
      NamedHasLink(St(), dp, j);
      UnlinkSums(St(), dp, j, 1);
      UnlinkInv(St(), dp, j);
      hide Inv, Names, Dots;
      var subdir := ns[ip].kind == Dir;
      ns := ns[dp := Node(ns[dp].kind, if subdir then ns[dp].nlink - 1
        else ns[dp].nlink, ns[dp].entries[j := Entry("", 0)])];
      ns := ns[ip := Node(ns[ip].kind, ns[ip].nlink - 1, ns[ip].entries)];
      assert St() == Next(old(St()), Unlink(dp, k));
      ok := true;
    }

    /** kernel/fs.c:203-215: the first inode that is not allocated, or 0 for the panic. */
    method Ialloc() returns (i: nat)
      requires Valid()
      ensures i != 0 ==> i < |ns| && ns[i].kind == Unallocated && forall x :: 1 <= x < i ==> ns[x].kind != Unallocated
      ensures i == 0 ==> forall x :: 1 <= x < |ns| ==> ns[x].kind != Unallocated
    {
      i := 1;
      while i < |ns|
        invariant 1 <= i && forall x :: 1 <= x < i && x < |ns| ==> ns[x].kind != Unallocated
      {
        if ns[i].kind == Unallocated { return; }
        i := i + 1;
      }
      i := 0;
    }

    /** create once dp is known and locked (kernel/sysfile.c:318-352). A taken name gives the
        inode it names if a file is asked for and that is a file or a device, and nothing
        otherwise. A new name gets the first free inode; without one ialloc panics, and without
        room for the name dirlink does. */
    method SysCreate(dp: nat, name: string, kind: Kind) returns (r: Created)
      requires Valid() && dp < |ns| && Live(ns[dp]) && kind != Unallocated
      modifies this`ns
      ensures !r.DirFull? ==> Valid()
      ensures r.New? || r.DirFull? <==>
                old(Absent(ns[dp].entries, name) && exists x :: 1 <= x < |ns| && ns[x].kind == Unallocated)
      ensures r.New? ==> old(HasRoom(ns[dp].entries))
      ensures r.DirFull? ==> old(!HasRoom(ns[dp].entries))
      ensures r.New? ==> 1 <= r.i < |ns| && old(ns[r.i].kind == Unallocated) && forall x :: 1 <= x < r.i ==>
                old(ns[x].kind != Unallocated)
      ensures r.New? ==> St() == Next(old(St()), Create(dp, name, kind, r.i))
      ensures !r.New? && !r.DirFull? ==> ns == old(ns) && (r.NoInodes? <==> Absent(ns[dp].entries, name))
      ensures r.There? ==>
                kind == File && r.i < |ns| && ns[r.i].kind in {File, Device} && Entry(name, r.i) in ns[dp].entries
      ensures r.Taken? && kind == File ==>
                exists k: nat :: FirstNamed(ns[dp].entries, name, k) && ns[dp].entries[k].inum < |ns| &&
                                             ns[ns[dp].entries[k].inum].kind !in {File, Device}
    {
      var k := DirLookup(ns[dp].entries, name);
      if k < |ns[dp].entries| {
        assert DirOk(ns, dp);
        var x := ns[dp].entries[k].inum;
        assert ns[dp].entries[k] == Entry(name, x);
        assert FirstNamed(ns[dp].entries, name, k);
        return if kind == File && (ns[x].kind == File || ns[x].kind == Device) then There(x) else Taken;
      }
      var i := Ialloc();
      if i == 0 { return NoInodes; }
      CreateInv(St(), dp, name, kind, i);
      ghost var before := St();
      var d := ns[dp];
      ns := ns[i := Node(kind, 1, if kind == Dir then [Entry(".", i), Entry("..", dp)] else [])];
      var l := DirLink(d.entries, name, i);
      if l.LinkPanic? { return DirFull; }
      ns := ns[dp := Node(d.kind, if kind == Dir then d.nlink + 1 else d.nlink, l.es)];
      assert St() == Next(before, Create(dp, name, kind, i));
      r := New(i);
    }

    /** sys_link of inode i, once both paths are resolved (kernel/sysfile.c:197-228): a
        directory is refused, and if the name is taken the count is put back. Full is the
        panic of dirlink. */
    method SysLink(i: nat, dp: nat, name: string) returns (r: Linking)
      requires Valid() && dp < |ns| && Live(ns[dp]) && 1 <= i < |ns| && ns[i].kind != Unallocated
      modifies this
      ensures !r.Full? ==> Valid() && pend == old(pend)
      ensures r.Refused? <==> old(ns[i].kind == Dir || !Absent(ns[dp].entries, name))
      ensures r.Full? <==> old(ns[i].kind != Dir && Absent(ns[dp].entries, name) && !HasRoom(ns[dp].entries))
      ensures r.Refused? ==> ns == old(ns)
      ensures r.Done? ==>
                ns[i].nlink == old(ns[i].nlink) + 1 && ns[dp].entries == Added(old(ns[dp].entries), Entry(name, i))
      ensures r.Done? ==>
                && Enabled(old(St()), LinkBegin(i))
                && Enabled(Next(old(St()), LinkBegin(i)), LinkEnd(i, dp, name))
                && St() == Next(Next(old(St()), LinkBegin(i)), LinkEnd(i, dp, name))
    {
      if ns[i].kind == Dir { return Refused; }
      hide Inv, Names, Dots;
      StepInv(St(), LinkBegin(i));
      ghost var s0 := St();
      ns := ns[i := Node(ns[i].kind, ns[i].nlink + 1, ns[i].entries)];
      pend := pend[i := pend[i] + 1];
      assert St() == Next(s0, LinkBegin(i));
      ghost var s1 := St();
      var l := DirLink(ns[dp].entries, name, i);
      if l.LinkPanic? { return Full; }
      if l.Linked? {
        r := Done;
        StepInv(s1, LinkEnd(i, dp, name));
        ns := ns[dp := Node(ns[dp].kind, ns[dp].nlink, l.es)];
        pend := pend[i := pend[i] - 1];
        assert St() == Next(s1, LinkEnd(i, dp, name));
      } else {
        r := Refused;
        StepInv(s1, LinkUndo(i));
        ns := ns[i := Node(ns[i].kind, ns[i].nlink - 1, ns[i].entries)];
        pend := pend[i := pend[i] - 1];
        assert St() == Next(s1, LinkUndo(i));
      }
      assert pend == old(pend);
    }
  }

  ghost predicate FirstNamed(es: seq<Entry>, name: string, k: nat) {
    k < |es| && es[k].inum != 0 && es[k].name == name && Absent(es[..k], name)
  }

  /** The first entry with this name is a directory that is not empty. */
  ghost predicate InUse(ns: Nodes, dp: nat, name: string, k: nat)
    requires dp < |ns|
  {
    && FirstNamed(ns[dp].entries, name, k) && ns[dp].entries[k].inum < |ns|
    && ns[ns[dp].entries[k].inum].kind == Dir && !Empty(ns[ns[dp].entries[k].inum].entries)
  }
}
