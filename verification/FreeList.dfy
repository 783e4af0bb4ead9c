/** The circular free list of user/umalloc.c on values: a ring of headers in address
    order, and the blocks of the heap around it. Addresses count Header-sized units. */
module FreeList {

  function Succ(i: nat, n: nat): nat {
    if i + 1 == n then 0 else i + 1
  }

  /** Steps along the ring from index a to index b. */
  function Dist(a: nat, b: nat, n: nat): int {
    if a <= b then b - a else n - a + b
  }

  ghost predicate Sorted(nodes: seq<nat>) {
    forall i, j :: 0 <= i < j < |nodes| ==> nodes[i] < nodes[j]
  }

  /** Following the pointers visits the nodes in order and then wraps once. */
  ghost predicate Ring(nodes: seq<nat>, ptr: map<nat, nat>) {
    forall i: nat :: i < |nodes| ==> Links(nodes, ptr, i)
  }

  predicate Links(nodes: seq<nat>, ptr: map<nat, nat>, i: nat)
    requires i < |nodes|
  {
    nodes[i] in ptr && ptr[nodes[i]] == nodes[Succ(i, |nodes|)]
  }

  /** blk gives every block of the heap, free or live, with its size: they lie above base,
      below top, and do not overlap. */
  ghost predicate Tiled(base: nat, top: nat, blk: map<nat, nat>) {
    && base < top
    && (forall a :: a in blk ==> base < a && blk[a] >= 1 && a + blk[a] <= top)
    && (forall a, b :: a in blk && b in blk && a < b ==> a + blk[a] <= b)
  }

  /** The list starts at base; its other nodes are blocks. */
  ghost predicate Listed(base: nat, nodes: seq<nat>, blk: map<nat, nat>) {
    && |nodes| >= 1 && nodes[0] == base && Sorted(nodes)
    && forall i :: 1 <= i < |nodes| ==> nodes[i] in blk
  }

  /** Block i of the list ends where block i + 1 begins. */
  predicate Touch(nodes: seq<nat>, blk: map<nat, nat>, i: nat) {
    1 <= i && i + 1 < |nodes| && nodes[i] in blk && nodes[i] + blk[nodes[i]] == nodes[i + 1]
  }

  /** No two neighbours in the list touch, except perhaps at lo..hi. */
  ghost predicate CoalescedBut(nodes: seq<nat>, blk: map<nat, nat>, lo: nat, hi: nat) {
    forall i: nat :: !(lo <= i < hi) ==> !Touch(nodes, blk, i)
  }

  ghost predicate Coalesced(nodes: seq<nat>, blk: map<nat, nat>) {
    forall i: nat :: !Touch(nodes, blk, i)
  }

  ghost function Live(nodes: seq<nat>, blk: map<nat, nat>): map<nat, nat> {
    map a | a in blk && a !in nodes :: blk[a]
  }

  // ---- totals ------------------------------------------------------------------------

  ghost function Total(m: map<nat, nat>): nat {
    if m == map[] then 0 else var k :| k in m; m[k] + Total(m - {k})
  }

  lemma {:induction false} TotalWithout(m: map<nat, nat>, k: nat)
    requires k in m
    ensures Total(m) == m[k] + Total(m - {k})
    decreases |m|
  {
    var j :| j in m && Total(m) == m[j] + Total(m - {j});
    if j != k {
      TotalWithout(m - {j}, k);
      TotalWithout(m - {k}, j);
      assert m - {j} - {k} == m - {k} - {j};
    }
  }

  lemma TotalAdd(m: map<nat, nat>, k: nat, v: nat)
    requires k !in m
    ensures Total(m[k := v]) == Total(m) + v
  {
    TotalWithout(m[k := v], k);
    assert m[k := v] - {k} == m;
  }

  lemma TotalSet(m: map<nat, nat>, k: nat, v: nat)
    requires k in m
    ensures Total(m[k := v]) == Total(m) - m[k] + v
  {
    TotalWithout(m, k);
    TotalWithout(m[k := v], k);
    assert m[k := v] - {k} == m - {k};
  }

  /** The free blocks of the list, with their sizes. */
  ghost function Free(nodes: seq<nat>, blk: map<nat, nat>): map<nat, nat> {
    map a | a in blk && a in nodes :: blk[a]
  }

  /** Conservation: live units and free units add up to all units. */
  lemma {:induction false} Conservation(nodes: seq<nat>, blk: map<nat, nat>)
    ensures Total(blk) == Total(Live(nodes, blk)) + Total(Free(nodes, blk))
    decreases |blk|
  {
    if blk == map[] {
      assert Live(nodes, blk) == map[] && Free(nodes, blk) == map[];
    } else {
      var a :| a in blk;
      var rest := blk - {a};
      Conservation(nodes, rest);
      TotalWithout(blk, a);
      if a in nodes {
        assert Live(nodes, blk) == Live(nodes, rest);
        assert Free(nodes, blk) == Free(nodes, rest)[a := blk[a]];
        TotalAdd(Free(nodes, rest), a, blk[a]);
      } else {
        assert Free(nodes, blk) == Free(nodes, rest);
        assert Live(nodes, blk) == Live(nodes, rest)[a := blk[a]];
        TotalAdd(Live(nodes, rest), a, blk[a]);
      }
    }
  }

  // ---- changing the list -------------------------------------------------------------

  function Inserted(nodes: seq<nat>, k: nat, x: nat): seq<nat>
    requires k <= |nodes|
  {
    nodes[..k] + [x] + nodes[k..]
  }

  function Removed(nodes: seq<nat>, k: nat): seq<nat>
    requires k < |nodes|
  {
    nodes[..k] + nodes[k + 1..]
  }

  /** x belongs right after node k: between two nodes, or above the last. */
  ghost predicate Between(nodes: seq<nat>, k: nat, x: nat) {
    k < |nodes| && nodes[k] < x && (k + 1 < |nodes| ==> x < nodes[k + 1])
  }

  lemma InsertedAt(nodes: seq<nat>, k: nat, x: nat, i: nat)
    requires k <= |nodes| && i <= |nodes|
    ensures |Inserted(nodes, k, x)| == |nodes| + 1
    ensures Inserted(nodes, k, x)[i] == if i < k then nodes[i] else if i == k then x else nodes[i - 1]
  {
  }

  lemma RemovedAt(nodes: seq<nat>, k: nat, i: nat)
    requires k < |nodes| && i < |nodes| - 1
    ensures |Removed(nodes, k)| == |nodes| - 1
    ensures Removed(nodes, k)[i] == if i < k then nodes[i] else nodes[i + 1]
  {
  }

  lemma SortedInsert(nodes: seq<nat>, k: nat, x: nat)
    requires Sorted(nodes) && Between(nodes, k, x)
    ensures Sorted(Inserted(nodes, k + 1, x))
  {
    var r := Inserted(nodes, k + 1, x);
    forall i, j | 0 <= i < j < |r| ensures r[i] < r[j] {
      InsertedAt(nodes, k + 1, x, i);
      InsertedAt(nodes, k + 1, x, j);
    }
  }

  lemma SortedRemove(nodes: seq<nat>, k: nat)
    requires Sorted(nodes) && k < |nodes|
    ensures Sorted(Removed(nodes, k))
  {
    var r := Removed(nodes, k);
    forall i, j | 0 <= i < j < |r| ensures r[i] < r[j] {
      RemovedAt(nodes, k, i);
      RemovedAt(nodes, k, j);
    }
  }

  /** Linking x in after node k. */
  lemma RingInsert(nodes: seq<nat>, ptr: map<nat, nat>, k: nat, x: nat)
    requires Ring(nodes, ptr) && Sorted(nodes) && Between(nodes, k, x)
    ensures Links(nodes, ptr, k)
    ensures Ring(Inserted(nodes, k + 1, x), ptr[x := ptr[nodes[k]]][nodes[k] := x])
  {
    assert Links(nodes, ptr, k);
    var r := Inserted(nodes, k + 1, x);
    var q := ptr[x := ptr[nodes[k]]][nodes[k] := x];
    forall i: nat | i < |r| ensures Links(r, q, i) {
      RingInsertAt(nodes, ptr, k, x, i);
    }
  }

  lemma RingInsertAt(nodes: seq<nat>, ptr: map<nat, nat>, k: nat, x: nat, i: nat)
    requires Ring(nodes, ptr) && Sorted(nodes) && Between(nodes, k, x) && i <= |nodes|
    ensures Links(nodes, ptr, k)
    ensures var r, q := Inserted(nodes, k + 1, x), ptr[x := ptr[nodes[k]]][nodes[k] := x];
            i < |r| && Links(r, q, i)
  {
    var n := |nodes|;
    assert Links(nodes, ptr, k);
    InsertedAt(nodes, k + 1, x, i);
    InsertedAt(nodes, k + 1, x, Succ(i, n + 1));
    if i < k || i > k + 1 {
      var j := if i < k then i else i - 1;
      assert Links(nodes, ptr, j);
      assert nodes[j] != nodes[k] && nodes[j] != x;
    }
  }

  /** Unlinking node k + 1 by redirecting node k. */
  lemma RingRemove(nodes: seq<nat>, ptr: map<nat, nat>, k: nat)
    requires Ring(nodes, ptr) && Sorted(nodes) && k + 1 < |nodes|
    ensures Links(nodes, ptr, k + 1)
    ensures Ring(Removed(nodes, k + 1), ptr[nodes[k] := ptr[nodes[k + 1]]])
  {
    assert Links(nodes, ptr, k + 1);
    var r := Removed(nodes, k + 1);
    var q := ptr[nodes[k] := ptr[nodes[k + 1]]];
    forall i: nat | i < |r| ensures Links(r, q, i) {
      RingRemoveAt(nodes, ptr, k, i);
    }
  }

  lemma RingRemoveAt(nodes: seq<nat>, ptr: map<nat, nat>, k: nat, i: nat)
    requires Ring(nodes, ptr) && Sorted(nodes) && k + 1 < |nodes| && i < |nodes| - 1
    ensures Links(nodes, ptr, k + 1)
    ensures var r, q := Removed(nodes, k + 1), ptr[nodes[k] := ptr[nodes[k + 1]]];
            i < |r| && Links(r, q, i)
  {
    var n := |nodes|;
    assert Links(nodes, ptr, k + 1);
    RemovedAt(nodes, k + 1, i);
    RemovedAt(nodes, k + 1, Succ(i, n - 1));
    hide Removed;
    if i != k {
      var j := if i < k then i else i + 1;
      assert Links(nodes, ptr, j);
    }
  }

  // ---- changing the blocks -----------------------------------------------------------

  /** Block a swallows the block b right behind it. */
  function Merged(blk: map<nat, nat>, a: nat, b: nat): map<nat, nat>
    requires a in blk && b in blk
  {
    (blk - {b})[a := blk[a] + blk[b]]
  }

  lemma MergeTiles(base: nat, top: nat, blk: map<nat, nat>, a: nat, b: nat)
    requires Tiled(base, top, blk) && a in blk && b in blk && a + blk[a] == b
    ensures Tiled(base, top, Merged(blk, a, b))
  {
    var m := Merged(blk, a, b);
    assert b + blk[b] <= top;
    forall x, y | x in m && y in m && x < y ensures x + m[x] <= y {
      assert x in blk && y in blk && y != b && x != b;
      if x == a {
        assert a + blk[a] <= y;
        assert b < y;
      }
    }
  }

  lemma MergeTotal(blk: map<nat, nat>, a: nat, b: nat)
    requires a in blk && b in blk && a != b
    ensures Total(Merged(blk, a, b)) == Total(blk)
  {
    TotalWithout(blk, b);
    TotalSet(blk - {b}, a, blk[a] + blk[b]);
  }

  lemma MergeTouch(nodes: seq<nat>, blk: map<nat, nat>, j: nat, i: nat)
    requires Sorted(nodes) && Touch(nodes, blk, j) && j + 1 < |nodes| && nodes[j + 1] in blk && i != j
    ensures Touch(Removed(nodes, j + 1), Merged(blk, nodes[j], nodes[j + 1]), i)
            ==> Touch(nodes, blk, if i < j then i else i + 1)
    ensures Touch(Removed(nodes, j + 1), Merged(blk, nodes[j], nodes[j + 1]), j) ==> Touch(nodes, blk, j + 1)
  {
    var r := Removed(nodes, j + 1);
    if 1 <= i && i + 1 < |r| {
      RemovedAt(nodes, j + 1, i);
      RemovedAt(nodes, j + 1, i + 1);
    }
    if j + 1 < |r| {
      RemovedAt(nodes, j + 1, j);
      RemovedAt(nodes, j + 1, j + 1);
    }
  }

  /** Merging neighbours j and j + 1 of the list. */
  lemma MergeNodes(base: nat, nodes: seq<nat>, blk: map<nat, nat>, j: nat, lo: nat)
    requires Listed(base, nodes, blk) && Touch(nodes, blk, j) && lo <= j && CoalescedBut(nodes, blk, lo, j + 1)
    ensures var r, m := Removed(nodes, j + 1), Merged(blk, nodes[j], nodes[j + 1]);
            Listed(base, r, m) && CoalescedBut(r, m, lo, j)
  {
    var r, m := Removed(nodes, j + 1), Merged(blk, nodes[j], nodes[j + 1]);
    SortedRemove(nodes, j + 1);
    forall i | 1 <= i < |r| ensures r[i] in m {
      RemovedAt(nodes, j + 1, i);
    }
    RemovedAt(nodes, j + 1, 0);
    forall i: nat | !(lo <= i < j) ensures !Touch(r, m, i) {
      MergeTouch(nodes, blk, j, if i == j then i + 1 else i);
    }
  }

  /** A live block x goes back into the list behind node k. */
  lemma InsertNode(base: nat, nodes: seq<nat>, blk: map<nat, nat>, k: nat, x: nat)
    requires Listed(base, nodes, blk) && Coalesced(nodes, blk) && x in blk && Between(nodes, k, x)
    ensures var r := Inserted(nodes, k + 1, x); Listed(base, r, blk) && CoalescedBut(r, blk, k, k + 2)
  {
    var r := Inserted(nodes, k + 1, x);
    SortedInsert(nodes, k, x);
    forall i | 1 <= i < |r| ensures r[i] in blk {
      InsertedAt(nodes, k + 1, x, i);
    }
    InsertedAt(nodes, k + 1, x, 0);
    forall i: nat | !(k <= i < k + 2) ensures !Touch(r, blk, i) {
      if 1 <= i && i + 1 < |r| {
        InsertedAt(nodes, k + 1, x, i);
        InsertedAt(nodes, k + 1, x, i + 1);
        assert !Touch(nodes, blk, if i < k then i else i - 1);
      }
    }
  }

  lemma TakeTouch(base: nat, top: nat, nodes: seq<nat>, blk: map<nat, nat>, k: nat, i: nat)
    requires Listed(base, nodes, blk) && Tiled(base, top, blk) && k + 1 < |nodes| &&
             Touch(Removed(nodes, k + 1), blk, i)
    ensures i != k && Touch(nodes, blk, if i < k then i else i + 1)
  {
    RemovedAt(nodes, k + 1, i);
    RemovedAt(nodes, k + 1, i + 1);
    if i == k {
      NeighboursApart(base, top, nodes, blk, k);
    }
  }

  lemma NeighboursApart(base: nat, top: nat, nodes: seq<nat>, blk: map<nat, nat>, k: nat)
    requires Listed(base, nodes, blk) && Tiled(base, top, blk) && 1 <= k && k + 2 < |nodes|
    ensures nodes[k] + blk[nodes[k]] < nodes[k + 2]
  {
    assert nodes[k] in blk && nodes[k + 1] in blk && nodes[k] < nodes[k + 1] < nodes[k + 2];
  }

  /** Taking node k + 1 off the list: its block becomes live, nothing else changes. */
  lemma TakeNode(base: nat, top: nat, nodes: seq<nat>, blk: map<nat, nat>, k: nat)
    requires Listed(base, nodes, blk) && Coalesced(nodes, blk) && Tiled(base, top, blk) && k + 1 < |nodes|
    ensures var r := Removed(nodes, k + 1);
            && Listed(base, r, blk) && Coalesced(r, blk)
            && Live(r, blk) == Live(nodes, blk)[nodes[k + 1] := blk[nodes[k + 1]]]
  {
    TakeListed(base, nodes, blk, k);
    var r := Removed(nodes, k + 1);
    forall i: nat ensures !Touch(r, blk, i) {
      if Touch(r, blk, i) {
        TakeTouch(base, top, nodes, blk, k, i);
      }
    }
    RemovedMembers(nodes, k + 1);
    hide Removed, Sorted, Tiled, Touch;
  }

  lemma TakeListed(base: nat, nodes: seq<nat>, blk: map<nat, nat>, k: nat)
    requires Listed(base, nodes, blk) && k + 1 < |nodes|
    ensures Listed(base, Removed(nodes, k + 1), blk)
  {
    var r := Removed(nodes, k + 1);
    SortedRemove(nodes, k + 1);
    RemovedAt(nodes, k + 1, 0);
    hide Sorted;
    forall i | 1 <= i < |r| ensures r[i] in blk {
      RemovedAt(nodes, k + 1, i);
    }
  }

  lemma RemovedMembers(nodes: seq<nat>, k: nat)
    requires Sorted(nodes) && k < |nodes|
    ensures forall a :: a in Removed(nodes, k) <==> a in nodes && a != nodes[k]
  {
    var r := Removed(nodes, k);
    forall a | a in nodes && a != nodes[k] ensures a in r {
      var i :| 0 <= i < |nodes| && nodes[i] == a;
      RemovedAt(nodes, k, if i < k then i else i - 1);
    }
    forall a | a in r ensures a in nodes && a != nodes[k] {
      var i :| 0 <= i < |r| && r[i] == a;
      RemovedAt(nodes, k, i);
    }
  }

  lemma InsertedMembers(nodes: seq<nat>, k: nat, x: nat)
    requires k <= |nodes|
    ensures forall a :: a in Inserted(nodes, k, x) <==> a in nodes || a == x
  {
    assert nodes == nodes[..k] + nodes[k..];
  }

  /** The last units of block a become a block of their own. */
  function Split(blk: map<nat, nat>, a: nat, units: nat): map<nat, nat>
    requires a in blk && 0 < units < blk[a]
  {
    blk[a := blk[a] - units][a + blk[a] - units := units]
  }

  lemma SplitIsNew(base: nat, top: nat, blk: map<nat, nat>, a: nat, units: nat)
    requires Tiled(base, top, blk) && a in blk && 0 < units < blk[a]
    ensures a + blk[a] - units !in blk
  {
    var end := a + blk[a];
    assert end - units in blk ==> end <= end - units;
  }

  lemma SplitTotal(blk: map<nat, nat>, a: nat, units: nat)
    requires a in blk && 0 < units < blk[a] && a + blk[a] - units !in blk
    ensures Total(Split(blk, a, units)) == Total(blk)
  {
    TotalSet(blk, a, blk[a] - units);
    TotalAdd(blk[a := blk[a] - units], a + blk[a] - units, units);
  }

  lemma SplitTiled(base: nat, top: nat, blk: map<nat, nat>, a: nat, units: nat)
    requires Tiled(base, top, blk) && a in blk && 0 < units < blk[a] && a + blk[a] - units !in blk
    ensures Tiled(base, top, Split(blk, a, units))
  {
    var end, q, m := a + blk[a], a + blk[a] - units, Split(blk, a, units);
    forall x, y | x in m && y in m && x < y ensures x + m[x] <= y {
      if x == q {
        assert a < y && end <= y;
      } else if y == q && x != a {
        assert a < x ==> end <= x;
        assert x + blk[x] <= a;
      }
    }
  }

  lemma SplitTouch(base: nat, top: nat, nodes: seq<nat>, blk: map<nat, nat>, i: nat, units: nat, j: nat)
    requires Listed(base, nodes, blk) && Tiled(base, top, blk) && !Touch(nodes, blk, j)
    requires 1 <= i < |nodes| && 0 < units < blk[nodes[i]]
    ensures !Touch(nodes, Split(blk, nodes[i], units), j)
  {
    SplitIsNew(base, top, blk, nodes[i], units);
    if 1 <= j && j + 1 < |nodes| {
      assert nodes[j] in blk && nodes[j + 1] in blk && nodes[j] < nodes[j + 1];
      assert nodes[j] + blk[nodes[j]] <= nodes[j + 1];
      assert j != i ==> nodes[j] != nodes[i];
    }
  }

  /** A block of the list is cut: the list stays, the new block is live. */
  lemma SplitNodes(base: nat, top: nat, nodes: seq<nat>, blk: map<nat, nat>, i: nat, units: nat)
    requires Listed(base, nodes, blk) && Coalesced(nodes, blk) && Tiled(base, top, blk)
    requires 1 <= i < |nodes| && 0 < units < blk[nodes[i]]
    ensures var m, q := Split(blk, nodes[i], units), nodes[i] + blk[nodes[i]] - units;
            Listed(base, nodes, m) && Coalesced(nodes, m) && q !in nodes
  {
    var m, q := Split(blk, nodes[i], units), nodes[i] + blk[nodes[i]] - units;
    SplitIsNew(base, top, blk, nodes[i], units);
    forall j: nat ensures !Touch(nodes, m, j) {
      SplitTouch(base, top, nodes, blk, i, units, j);
    }
    assert forall j :: 1 <= j < |nodes| ==> nodes[j] in blk;
    assert base < nodes[i] < q;
  }

  lemma SplitLive(nodes: seq<nat>, blk: map<nat, nat>, a: nat, units: nat)
    requires a in nodes && a in blk && 0 < units < blk[a]
    requires a + blk[a] - units !in nodes && a + blk[a] - units !in blk
    ensures Live(nodes, Split(blk, a, units)) == Live(nodes, blk)[a + blk[a] - units := units]
  {
  }

  /** A fresh block from sbrk lies above everything. */
  lemma GrowTiles(base: nat, top: nat, nodes: seq<nat>, blk: map<nat, nat>, a: nat, units: nat)
    requires Listed(base, nodes, blk) && Coalesced(nodes, blk) && Tiled(base, top, blk) && top <= a && units >= 1
    ensures var m := blk[a := units];
            && a !in blk && a !in nodes && Tiled(base, a + units, m) && Total(m) == Total(blk) + units
            && Listed(base, nodes, m) && Coalesced(nodes, m) && Live(nodes, m) == Live(nodes, blk)[a := units]
  {
    GrowIsNew(base, top, nodes, blk, a);
    TotalAdd(blk, a, units);
    hide Total;
    var m := blk[a := units];
    assert Tiled(base, a + units, m) by {
      hide Listed, Coalesced;
    }
    hide Tiled;
    GrowListed(base, nodes, blk, a, units);
    GrowLive(nodes, blk, a, units);
  }

  lemma GrowIsNew(base: nat, top: nat, nodes: seq<nat>, blk: map<nat, nat>, a: nat)
    requires Listed(base, nodes, blk) && Tiled(base, top, blk) && top <= a
    ensures a !in blk && a !in nodes
  {
  }

  lemma GrowListed(base: nat, nodes: seq<nat>, blk: map<nat, nat>, a: nat, units: nat)
    requires Listed(base, nodes, blk) && Coalesced(nodes, blk) && a !in nodes
    ensures Listed(base, nodes, blk[a := units]) && Coalesced(nodes, blk[a := units])
  {
    var m := blk[a := units];
    forall j: nat ensures !Touch(nodes, m, j) {
      assert !Touch(nodes, blk, j);
    }
  }

  lemma GrowLive(nodes: seq<nat>, blk: map<nat, nat>, a: nat, units: nat)
    requires a !in blk && a !in nodes
    ensures Live(nodes, blk[a := units]) == Live(nodes, blk)[a := units]
  {
  }
}
