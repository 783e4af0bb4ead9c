/** Directories and link counts (kernel/sysfile.c:177-352, kernel/fs.c:203-215, 333-359, 528-584). */
module Directories {

  datatype Kind = Unallocated | Dir | File | Device

  /** inum 0 marks an unused slot. */
  datatype Entry = Entry(name: string, inum: nat)

  datatype Node = Node(kind: Kind, nlink: nat, entries: seq<Entry>)

  type Nodes = seq<Node>

  // ---- one directory -------------------------------------------------------------

  ghost predicate Absent(es: seq<Entry>, name: string) {
    forall k :: 0 <= k < |es| ==> es[k].inum == 0 || es[k].name != name
  }

  /** kernel/fs.c:530-553: the first slot in use with this name, or |es|. */
  method DirLookup(es: seq<Entry>, name: string) returns (k: nat)
    ensures k <= |es| && (k == |es| <==> Absent(es, name))
    ensures k < |es| ==> es[k].inum != 0 && es[k].name == name && Absent(es[..k], name)
  {
    k := 0;
    while k < |es|
      invariant k <= |es| && Absent(es[..k], name)
    {
      if es[k].inum != 0 && es[k].name == name { return; }
      assert es[..k + 1] == es[..k] + [es[k]];
      k := k + 1;
    }
    assert es[..k] == es;
  }

  /** The first unused slot, or |es|. */
  function FirstFree(es: seq<Entry>): (k: nat)
    ensures k <= |es| && (k < |es| ==> es[k].inum == 0) && forall i :: 0 <= i < k ==> es[i].inum != 0
  {
    if es == [] || es[0].inum == 0 then 0 else 1 + FirstFree(es[1..])
  }

  /** The directory after dirlink. */
  function Added(es: seq<Entry>, e: Entry): seq<Entry> {
    if FirstFree(es) < |es| then es[FirstFree(es) := e] else es + [e]
  }

  /** The most entries that a file can hold: MAXFILE blocks of 64 entries each. */
  const MAXENTRIES: nat := 268 * 64

  /** There is a slot for one more entry. */
  predicate HasRoom(es: seq<Entry>) { FirstFree(es) < |es| || |es| < MAXENTRIES }

  /** What dirlink does: the entry is in, the name was there already, or the panic when writei
      refuses to make the directory longer. */
  datatype Link = Linked(es: seq<Entry>) | NameTaken | LinkPanic

  /** kernel/fs.c:556-584: fails exactly when the name is there; otherwise the entry takes the
      first unused slot, or extends the directory, and the panic is exactly a directory of the
      largest size without an unused slot. */
  method DirLink(es: seq<Entry>, name: string, inum: nat) returns (r: Link)
    ensures r.NameTaken? <==> !Absent(es, name)
    ensures r.LinkPanic? <==> Absent(es, name) && !HasRoom(es)
    ensures r.Linked? ==> r.es == Added(es, Entry(name, inum))
  {
    var found := DirLookup(es, name);
    if found < |es| { return NameTaken; }
    var k := 0;
    while k < |es|
      invariant k <= |es| && forall i :: 0 <= i < k ==> es[i].inum != 0
    {
      if es[k].inum == 0 { break; }
      k := k + 1;
    }
    FirstFreeIs(es, k);
    if k == |es| && k + 1 > MAXENTRIES { return LinkPanic; }
    r := Linked(if k < |es| then es[k := Entry(name, inum)] else es + [Entry(name, inum)]);
  }

  lemma {:induction false} FirstFreeIs(es: seq<Entry>, k: nat)
    requires k <= |es| && (k < |es| ==> es[k].inum == 0) && forall i :: 0 <= i < k ==> es[i].inum != 0
    ensures FirstFree(es) == k
  {
    if k > 0 { FirstFreeIs(es[1..], k - 1); }
  }

  ghost predicate Empty(es: seq<Entry>) {
    forall k :: 2 <= k < |es| ==> es[k].inum == 0
  }

  /** kernel/sysfile.c:232-245. */
  method IsDirEmpty(es: seq<Entry>) returns (r: bool)
    ensures r <==> Empty(es)
  {
    var k := 2;
    while k < |es|
      invariant 2 <= k && forall i :: 2 <= i < k && i < |es| ==> es[i].inum == 0
    {
      if es[k].inum != 0 { return false; }
      k := k + 1;
    }
    r := true;
  }

  // ---- counting references ---------------------------------------------------------

  /** How many of the slots behind "." and ".." name inode j. */
  ghost function Named(es: seq<Entry>, j: nat): nat {
    if |es| <= 2 then 0 else Named(es[..|es| - 1], j) + (if es[|es| - 1].inum == j then 1 else 0)
  }

  lemma {:induction false} NamedPut(es: seq<Entry>, k: nat, e: Entry, j: nat)
    requires 2 <= k < |es|
    ensures Named(es[k := e], j) + (if es[k].inum == j then 1 else 0) == Named(es, j) + (if e.inum == j then 1 else 0)
  {
    var n := |es| - 1;
    if k < n {
      NamedPut(es[..n], k, e, j);
      assert es[k := e][..n] == es[..n][k := e];
    } else {
      assert es[k := e][..n] == es[..n];
    }
  }

  lemma NamedAdded(es: seq<Entry>, e: Entry, j: nat)
    requires |es| >= 2 && es[0].inum != 0 && es[1].inum != 0 && j != 0
    ensures Named(Added(es, e), j) == Named(es, j) + (if e.inum == j then 1 else 0)
  {
    var k := FirstFree(es);
    if k < |es| { NamedPut(es, k, e, j); } else { assert (es + [e])[..|es|] == es; }
  }

  lemma {:induction false} NamedSome(es: seq<Entry>, j: nat)
    requires j != 0
    ensures Named(es, j) > 0 <==> exists k :: 2 <= k < |es| && es[k].inum == j
  {
    if |es| > 2 {
      var n := |es| - 1;
      NamedSome(es[..n], j);
      if Named(es[..n], j) > 0 {
        var k :| 2 <= k < n && es[..n][k].inum == j;
        assert es[k].inum == j;
      }
      if exists k :: 2 <= k < |es| && es[k].inum == j {
        var k :| 2 <= k < |es| && es[k].inum == j;
        if k < n { assert es[..n][k].inum == j; }
      }
    }
  }

  predicate Live(d: Node) { d.kind == Dir && d.nlink > 0 }

  ghost function NamesOf(d: Node, j: nat): nat {
    if Live(d) then Named(d.entries, j) else 0
  }

  ghost function DotsOf(d: Node, j: nat): nat {
    if Live(d) && |d.entries| >= 2 && d.entries[1].inum == j then 1 else 0
  }

  /** References to j in the live directories among the first n inodes: by name, and by "..". */
  ghost function Names(ns: Nodes, j: nat, n: nat): nat
    requires n <= |ns|
  {
    if n == 0 then 0 else Names(ns, j, n - 1) + NamesOf(ns[n - 1], j)
  }

  ghost function Dots(ns: Nodes, j: nat, n: nat): nat
    requires n <= |ns|
  {
    if n == 0 then 0 else Dots(ns, j, n - 1) + DotsOf(ns[n - 1], j)
  }

  lemma {:induction false} NamesPut(ns: Nodes, d: nat, x: Node, j: nat, n: nat)
    requires n <= |ns| && d < |ns|
    ensures Names(ns[d := x], j, n) == Names(ns, j, n) + (if d < n then NamesOf(x, j) - NamesOf(ns[d], j) else 0)
    ensures Dots(ns[d := x], j, n) == Dots(ns, j, n) + (if d < n then DotsOf(x, j) - DotsOf(ns[d], j) else 0)
  {
    if n > 0 { NamesPut(ns, d, x, j, n - 1); }
  }

  lemma {:induction false} NamesSome(ns: Nodes, j: nat, n: nat) returns (d: nat)
    requires n <= |ns| && Names(ns, j, n) > 0
    ensures d < n && NamesOf(ns[d], j) > 0
  {
    if NamesOf(ns[n - 1], j) > 0 { d := n - 1; } else { d := NamesSome(ns, j, n - 1); }
  }

  lemma {:induction false} NamesAtLeast(ns: Nodes, j: nat, d: nat, n: nat)
    requires d < n <= |ns|
    ensures Names(ns, j, n) >= NamesOf(ns[d], j)
  {
    if d < n - 1 { NamesAtLeast(ns, j, d, n - 1); }
  }

  lemma {:induction false} DotsSome(ns: Nodes, j: nat, n: nat) returns (d: nat)
    requires n <= |ns| && Dots(ns, j, n) > 0
    ensures d < n && DotsOf(ns[d], j) > 0
  {
    if DotsOf(ns[n - 1], j) > 0 { d := n - 1; } else { d := DotsSome(ns, j, n - 1); }
  }
}
