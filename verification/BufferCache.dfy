/** The buffer cache: a doubly linked ring of buffers through a list head, most
    recently released first (kernel/bio.c). */
module BufferCache {
  import opened Blocks

  datatype Key = Key(dev: nat, blockno: nat)

  datatype Buf = Buf(key: Key, valid: bool, refcnt: nat, data: Block)

  datatype Option = None | Some(buf: nat)

  /** refcnt is a C `uint`. */
  function Inc(n: nat): nat { (n + 1) % UINT_LIMIT }

  function Dec(n: nat): nat { (n + UINT_LIMIT - 1) % UINT_LIMIT }

  // ---- the ring -----------------------------------------------------------

  /** The i-th node met when following `next` from the head h (node 0). */
  ghost function Node(h: nat, order: seq<nat>, i: nat): nat
    requires i <= |order| + 1
  {
    if i == 0 || i == |order| + 1 then h else order[i - 1]
  }

  ghost predicate Distinct(order: seq<nat>) {
    forall i, j :: 0 <= i < j < |order| ==> order[i] != order[j]
  }

  ghost predicate LinkAt(h: nat, order: seq<nat>, next: seq<nat>, prev: seq<nat>, i: nat)
    requires i <= |order|
  {
    var a, b := Node(h, order, i), Node(h, order, i + 1);
    a < |next| && b < |prev| && next[a] == b && prev[b] == a
  }

  /** next and prev run through the head and `order`, in opposite directions. */
  ghost predicate Links(h: nat, order: seq<nat>, next: seq<nat>, prev: seq<nat>) {
    && |next| == |prev| == h + 1
    && (forall i :: 0 <= i < |order| ==> order[i] < h)
    && Distinct(order)
    && (forall i: nat :: i <= |order| ==> LinkAt(h, order, next, prev, i))
  }

  function Without(s: seq<nat>, k: nat): (r: seq<nat>)
    requires k < |s|
    ensures |r| == |s| - 1
  {
    s[..k] + s[k + 1..]
  }

  lemma Unlink(h: nat, order: seq<nat>, k: nat, next: seq<nat>, prev: seq<nat>)
    requires Links(h, order, next, prev) && k < |order|
    ensures next[order[k]] <= h && prev[order[k]] <= h
    ensures Links(h, Without(order, k),
                  next[prev[order[k]] := next[order[k]]], prev[next[order[k]] := prev[order[k]]])
  {
    var b := order[k];
    assert LinkAt(h, order, next, prev, k) && LinkAt(h, order, next, prev, k + 1);
    var w := Without(order, k);
    var n, p := next[prev[b] := next[b]], prev[next[b] := prev[b]];
    forall i: nat | i <= |w| ensures LinkAt(h, w, n, p, i) {
      if i < k {
        assert LinkAt(h, order, next, prev, i);
      } else if i > k {
        assert LinkAt(h, order, next, prev, i + 1);
      }
    }
  }

  lemma LinkFront(h: nat, order: seq<nat>, b: nat, next: seq<nat>, prev: seq<nat>)
    requires Links(h, order, next, prev) && b < h && b !in order
    ensures next[h] <= h
    ensures Links(h, [b] + order, next[b := next[h]][h := b], prev[b := h][next[h] := b])
  {
    assert LinkAt(h, order, next, prev, 0);
    var w := [b] + order;
    var n, p := next[b := next[h]][h := b], prev[b := h][next[h] := b];
    forall i: nat | i <= |w| ensures LinkAt(h, w, n, p, i) {
      if i >= 2 {
        assert LinkAt(h, order, next, prev, i - 1);
      }
    }
  }

  // ---- what the operations mean on the list of buffers ---------------------

  /** The first buffer in ring order that holds key. */
  function Lookup(order: seq<nat>, bufs: seq<Buf>, key: Key): (r: Option)
    requires forall i :: 0 <= i < |order| ==> order[i] < |bufs|
    ensures r.Some? ==> r.buf in order && bufs[r.buf].key == key
    ensures r.None? ==> forall i :: 0 <= i < |order| ==> bufs[order[i]].key != key
  {
    if order == [] then None
    else if bufs[order[0]].key == key then Some(order[0])
    else Lookup(order[1..], bufs, key)
  }

  /** The last unreferenced buffer in ring order. */
  function Victim(order: seq<nat>, bufs: seq<Buf>): (r: Option)
    requires forall i :: 0 <= i < |order| ==> order[i] < |bufs|
    ensures r.Some? ==> r.buf in order && bufs[r.buf].refcnt == 0
    ensures r.None? ==> forall i :: 0 <= i < |order| ==> bufs[order[i]].refcnt != 0
  {
    if order == [] then None
    else
      var last := order[|order| - 1];
      if bufs[last].refcnt == 0 then Some(last) else Victim(order[..|order| - 1], bufs)
  }

  /** The buffer that bget answers with, if any. */
  function Chosen(order: seq<nat>, bufs: seq<Buf>, key: Key): (r: Option)
    requires forall i :: 0 <= i < |order| ==> order[i] < |bufs|
    ensures r.Some? ==> r.buf in order
  {
    var hit := Lookup(order, bufs, key);
    if hit.Some? then hit else Victim(order, bufs)
  }

  /** What bget does to the buffer it chose: one more reference, or a recycling. */
  function Taken(b: Buf, key: Key): Buf {
    if b.key == key then Buf(key, b.valid, Inc(b.refcnt), b.data) else Buf(key, false, 1, b.data)
  }

  function WithRef(b: Buf, refcnt: nat): Buf {
    Buf(b.key, b.valid, refcnt, b.data)
  }

  function Front(order: seq<nat>, b: nat): seq<nat> {
    [b] + Removed(order, b)
  }

  function Removed(order: seq<nat>, b: nat): (r: seq<nat>) {
    if order == [] then []
    else if order[0] == b then order[1..]
    else [order[0]] + Removed(order[1..], b)
  }

  lemma {:induction false} RemovedAt(order: seq<nat>, k: nat)
    requires k < |order| && Distinct(order)
    ensures Removed(order, order[k]) == Without(order, k)
  {
    if k > 0 {
      assert order[0] != order[k];
      RemovedAt(order[1..], k - 1);
      assert order[1..][k - 1] == order[k];
      assert [order[0]] + Without(order[1..], k - 1) == Without(order, k);
    }
  }

  lemma {:induction false} LookupSkips(order: seq<nat>, bufs: seq<Buf>, key: Key, i: nat)
    requires forall j :: 0 <= j < |order| ==> order[j] < |bufs|
    requires i <= |order|
    requires forall j :: 0 <= j < i ==> bufs[order[j]].key != key
    ensures Lookup(order, bufs, key) == Lookup(order[i..], bufs, key)
  {
    if i > 0 {
      LookupSkips(order[1..], bufs, key, i - 1);
      assert order[1..][i - 1..] == order[i..];
    } else {
      assert order[0..] == order;
    }
  }

  lemma {:induction false} VictimSkips(order: seq<nat>, bufs: seq<Buf>, i: nat)
    requires forall j :: 0 <= j < |order| ==> order[j] < |bufs|
    requires i <= |order|
    requires forall j :: i <= j < |order| ==> bufs[order[j]].refcnt != 0
    ensures Victim(order, bufs) == Victim(order[..i], bufs)
  {
    if i < |order| {
      var n := |order| - 1;
      VictimSkips(order[..n], bufs, i);
      assert order[..n][..i] == order[..i];
    } else {
      assert order[..i] == order;
    }
  }

  lemma VictimHere(order: seq<nat>, bufs: seq<Buf>, i: nat)
    requires (forall j :: 0 <= j < |order| ==> order[j] < |bufs|) && 0 < i <= |order| && bufs[order[i - 1]].refcnt == 0
    requires forall j :: i <= j < |order| ==> bufs[order[j]].refcnt != 0
    ensures Victim(order, bufs) == Some(order[i - 1])
  {
    VictimSkips(order, bufs, i);
    assert order[..i][i - 1] == order[i - 1];
  }

  lemma NoVictim(order: seq<nat>, bufs: seq<Buf>)
    requires forall j :: 0 <= j < |order| ==> order[j] < |bufs| && bufs[order[j]].refcnt != 0
    ensures Victim(order, bufs).None?
  {
    VictimSkips(order, bufs, 0);
  }

  lemma NotFound(order: seq<nat>, bufs: seq<Buf>, key: Key, i: nat)
    requires (forall j :: 0 <= j < |order| ==> order[j] < |bufs|) && Lookup(order, bufs, key).None? && i < |order|
    ensures bufs[order[i]].key != key
  {
    hide Lookup;
  }

  lemma LinkHere(h: nat, order: seq<nat>, next: seq<nat>, prev: seq<nat>, i: nat)
    requires Links(h, order, next, prev) && i <= |order|
    ensures LinkAt(h, order, next, prev, i) && |next| == |prev| == h + 1
    ensures forall j :: 0 <= j < |order| ==> order[j] < h
  {
  }

  class Bcache {
    const head: nat
    const next: array<nat>
    const prev: array<nat>
    const buf: array<Buf>
    ghost var order: seq<nat>

    ghost predicate Valid()
      reads this, next, prev, buf
    {
      && next != prev
      && buf.Length == head && |order| == head
      && Links(head, order, next[..], prev[..])
    }

    /** kernel/bio.c:36-52. All buffers are in the ring, the last one first. */
    constructor (size: nat, zero: Block)
      ensures Valid() && fresh(next) && fresh(prev) && fresh(buf) && head == size
      ensures forall i :: 0 <= i < size ==> order[i] == size - 1 - i
      ensures forall i :: 0 <= i < size ==> buf[i] == Buf(Key(0, 0), false, 0, zero)
    {
      head := size;
      next := new nat[size + 1](_ => size);
      prev := new nat[size + 1](_ => size);
      buf := new Buf[size](_ => Buf(Key(0, 0), false, 0, zero));
      order := [];
      new;
      assert LinkAt(head, order, next[..], prev[..], 0);
      for b := 0 to size
        invariant next != prev && |order| == b
        invariant Links(head, order, next[..], prev[..])
        invariant forall i :: 0 <= i < b ==> order[i] == b - 1 - i
        invariant forall i :: 0 <= i < size ==> buf[i] == Buf(Key(0, 0), false, 0, zero)
      {
        Relink(b, order, next[..], prev[..]);
        order := [b] + order;
      }
    }

    /** bget up to the release of bcache.lock (kernel/bio.c:57-87): a hit takes one more
        reference; a miss recycles the unreferenced buffer nearest the tail; None is the
        panic, reached only when the block is not cached and every buffer is in use. */
    method BGet(key: Key) returns (r: Option)
      requires Valid()
      modifies buf
      ensures Valid() && order == old(order)
      ensures r == Chosen(order, old(buf[..]), key) && (r.Some? ==> r.buf < head && r.buf in order)
      ensures buf[..] == if r.Some? then old(buf[..])[r.buf := Taken(old(buf[r.buf]), key)] else old(buf[..])
    {
      ghost var bufs := buf[..];
      ghost var i: nat := 0;
      var b := next[head];
      assert LinkAt(head, order, next[..], prev[..], 0);
      while b != head
        invariant i <= head && b == Node(head, order, i + 1)
        invariant forall j :: 0 <= j < i ==> bufs[order[j]].key != key
        invariant buf[..] == bufs
        decreases head - i
      {
        if buf[b].key == key {
          LookupSkips(order, bufs, key, i);
          buf[b] := Buf(key, buf[b].valid, Inc(buf[b].refcnt), buf[b].data);
          return Some(b);
        }
        assert LinkAt(head, order, next[..], prev[..], i + 1);
        b := next[b];
        i := i + 1;
      }
      LookupSkips(order, bufs, key, i);
      r := Recycle(key);
    }

    /** The second scan of bget, from the tail (kernel/bio.c:75-86). */
    method Recycle(key: Key) returns (r: Option)
      requires Valid() && Lookup(order, buf[..], key).None?
      modifies buf
      ensures Valid() && order == old(order)
      ensures r == Victim(order, old(buf[..]))
      ensures buf[..] == if r.Some? then old(buf[..])[r.buf := Taken(old(buf[r.buf]), key)] else old(buf[..])
    {
      hide Links, Lookup, Victim;
      ghost var bufs := buf[..];
      ghost var i: nat := head;
      LinkHere(head, order, next[..], prev[..], head);
      var b := prev[head];
      while b != head
        invariant i <= head && b == Node(head, order, i)
        invariant forall j :: i <= j < head ==> bufs[order[j]].refcnt != 0
        invariant buf[..] == bufs
        decreases i
      {
        if buf[b].refcnt == 0 {
          VictimHere(order, bufs, i);
          NotFound(order, bufs, key, i - 1);
          buf[b] := Buf(key, false, 1, buf[b].data);
          return Some(b);
        }
        LinkHere(head, order, next[..], prev[..], i - 1);
        b := prev[b];
        i := i - 1;
      }
      NoVictim(order, bufs);
      r := None;
    }

    /** brelse after the sleep-lock is let go (kernel/bio.c:122-134): one reference less,
        and a buffer nobody references any more moves to the front of the ring. */
    method BRelse(b: nat)
      requires Valid() && b < head && b in order
      modifies this, next, prev, buf
      ensures Valid()
      ensures buf[..] == old(buf[..])[b := WithRef(old(buf[b]), Dec(old(buf[b].refcnt)))]
      ensures order == if buf[b].refcnt == 0 then Front(old(order), b) else old(order)
    {
      buf[b] := WithRef(buf[b], Dec(buf[b].refcnt));
      if buf[b].refcnt == 0 {
        ghost var k: nat :| k < |order| && order[k] == b;
        RemovedAt(order, k);
        Unlink(head, order, k, next[..], prev[..]);
        ghost var n, p := next[..], prev[..];
        prev[next[b]] := prev[b];
        next[prev[b]] := next[b];
        assert prev[..] == p[n[b] := p[b]];
        assert next[prev[b]] == n[b];
        Relink(b, Without(order, k), n[p[b] := n[b]], p[n[b] := p[b]]);
        order := Front(order, b);
      }
    }

    method Relink(b: nat, ghost rest: seq<nat>, ghost n: seq<nat>, ghost p: seq<nat>)
      requires next != prev && b < head && b !in rest
      requires Links(head, rest, n, p) && next[..] == n && prev[..] == p
      modifies next, prev
      ensures Links(head, [b] + rest, next[..], prev[..])
    {
      LinkFront(head, rest, b, n, p);
      next[b] := next[head];
      prev[b] := head;
      prev[next[head]] := b;
      next[head] := b;
      assert next[..] == n[b := n[head]][head := b];
      assert prev[..] == p[b := head][n[head] := b];
    }

    /** kernel/bio.c:137-149. Neither moves the buffer in the ring; as long as the count does not
        wrap, no bget takes a pinned buffer for another block. */
    method BPin(b: nat)
      requires Valid() && b < head
      modifies buf
      ensures old(buf[b].refcnt) + 1 < UINT_LIMIT ==>
                forall key :: Chosen(order, buf[..], key) == Some(b) ==> buf[b].key == key
      ensures Valid() && buf[..] == old(buf[..])[b := WithRef(old(buf[b]), Inc(old(buf[b].refcnt)))]
    {
      buf[b] := WithRef(buf[b], Inc(buf[b].refcnt));
    }

    method BUnpin(b: nat)
      requires Valid() && b < head
      modifies buf
      ensures Valid() && buf[..] == old(buf[..])[b := WithRef(old(buf[b]), Dec(old(buf[b].refcnt)))]
    {
      buf[b] := WithRef(buf[b], Dec(buf[b].refcnt));
    }
  }
}
