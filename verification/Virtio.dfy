/** The descriptor table of the virtio disk driver (kernel/virtio_disk.c:115-249). */
module Virtio {

  const NUM: nat := 8

  /** The lowest free descriptor from i on, or NUM. */
  function Lowest(free: seq<bool>, i: nat): (r: nat)
    requires i <= |free| == NUM
    ensures i <= r <= NUM && (r < NUM ==> free[r]) && forall k :: i <= k < r ==> !free[k]
    decreases NUM - i
  {
    if i == NUM || free[i] then i else Lowest(free, i + 1)
  }


  /** The three lowest free descriptors, if there are three. */
  function Three(free: seq<bool>): (c: seq<nat>)
    requires |free| == NUM
    ensures c == [] || (|c| == 3 && c[0] < c[1] < c[2] < NUM && free[c[0]] && free[c[1]] && free[c[2]])
    ensures c == [] ==> forall x, y, z :: 0 <= x < y < z < NUM ==> !(free[x] && free[y] && free[z])
  {
    var x := Lowest(free, 0);
    if x == NUM then []
    else
      var y := Lowest(free, x + 1);
      if y == NUM then []
      else
        var z := Lowest(free, y + 1);
        if z == NUM then [] else [x, y, z]
  }

  function Marked(free: seq<bool>, c: seq<nat>, value: bool): (r: seq<bool>)
    requires |free| == NUM && forall k :: 0 <= k < |c| ==> c[k] < NUM
    ensures |r| == NUM && forall i :: 0 <= i < NUM ==> r[i] == if i in c then value else free[i]
  {
    seq(NUM, i requires 0 <= i < NUM => if i in c then value else free[i])
  }

  /** c is a chain of three descriptors linked through next and the NEXT flag. */
  ghost predicate Chain(next: seq<nat>, more: seq<bool>, c: seq<nat>) {
    && |next| == |more| == NUM && |c| == 3
    && c[0] < NUM && c[1] < NUM && c[2] < NUM && c[0] != c[1] && c[0] != c[2] && c[1] != c[2]
    && more[c[0]] && next[c[0]] == c[1] && more[c[1]] && next[c[1]] == c[2] && !more[c[2]]
  }

  ghost predicate InUse(free: seq<bool>, c: seq<nat>) {
    |free| == NUM && forall k :: 0 <= k < |c| ==> c[k] < NUM && !free[c[k]]
  }

  class Descriptors {
    const free: array<bool>
    const next: array<nat>
    const more: array<bool>

    ghost predicate Valid()
      reads this
    {
      free.Length == next.Length == more.Length == NUM && free != more
    }

    /** kernel/virtio_disk.c:109-110. */
    constructor ()
      ensures Valid() && fresh(free) && fresh(next) && fresh(more)
      ensures forall i :: 0 <= i < NUM ==> free[i]
    {
      free := new bool[NUM](_ => true);
      next := new nat[NUM](_ => 0);
      more := new bool[NUM](_ => false);
    }

    /** kernel/virtio_disk.c:116-126; NUM stands for -1. */
    method AllocDesc(ghost from: nat) returns (i: nat)
      requires Valid() && from <= NUM && forall k :: 0 <= k < from ==> !free[k]
      modifies free
      ensures i == Lowest(old(free[..]), from)
      ensures free[..] == if i < NUM then old(free[..])[i := false] else old(free[..])
    {
      i := 0;
      while i < NUM
        invariant i <= NUM && free[..] == old(free[..])
        invariant forall k :: 0 <= k < i ==> !free[k]
      {
        if free[i] {
          LowestIs(free[..], from, i);
          free[i] := false;
          return;
        }
        i := i + 1;
      }
      LowestIs(free[..], from, i);
    }

    /** kernel/virtio_disk.c:129-139; false is one of the two panics. */
    method FreeDesc(i: nat) returns (ok: bool)
      requires Valid()
      modifies free
      ensures ok <==> i < NUM && !old(free[..])[i]
      ensures free[..] == if ok then old(free[..])[i := true] else old(free[..])
    {
      if i >= NUM { return false; }
      if free[i] { return false; }
      free[i] := true;
      ok := true;
    }

    /** kernel/virtio_disk.c:154-166: three descriptors, or the table as it was. */
    method Alloc3() returns (idx: seq<nat>)
      requires Valid()
      modifies free
      ensures idx == Three(old(free[..]))
      ensures free[..] == Marked(old(free[..]), idx, false)
    {
      hide Lowest, Marked, Three;
      ghost var f := free[..];
      ThreeIs(f);
      var x := AllocDesc(0);
      if x == NUM { return []; }
      Skip(f, x, 0);
      var y := AllocDesc(x + 1);
      if y == NUM {
        PutBack(f, x, x);
        var a := FreeDesc(x);
        return [];
      }
      Skip(f, x, y);
      var z := AllocDesc(y + 1);
      if z == NUM {
        PutBack(f, x, y);
        var a := FreeDesc(x);
        var b := FreeDesc(y);
        return [];
      }
      MarkedThree(f, x, y, z);
      idx := [x, y, z];
    }

    /** The links that virtio_disk_rw writes (kernel/virtio_disk.c:206-224). */
    method Format(c: seq<nat>)
      requires Valid() && |c| == 3 && c[0] < c[1] < c[2] < NUM
      modifies next, more
      ensures Chain(next[..], more[..], c)
      ensures next[..] == old(next[..])[c[0] := c[1]][c[1] := c[2]][c[2] := 0]
      ensures more[..] == old(more[..])[c[0] := true][c[1] := true][c[2] := false]
    {
      next[c[0]], more[c[0]] := c[1], true;
      next[c[1]], more[c[1]] := c[2], true;
      next[c[2]], more[c[2]] := 0, false;
    }

    /** kernel/virtio_disk.c:142-152: the three descriptors of a chain are freed, without
        reaching a panic. */
    method FreeChain(i: nat, ghost c: seq<nat>) returns (ok: bool)
      requires Valid() && Chain(next[..], more[..], c) && InUse(free[..], c) && i == c[0]
      modifies free
      ensures ok && free[..] == Marked(old(free[..]), c, true)
    {
      ghost var f := free[..];
      var d := i;
      ghost var k := 0;
      while true
        invariant 0 <= k < 3 && d == c[k]
        invariant free[..] == Marked(f, c[..k], true)
        decreases 3 - k
      {
        ok := FreeDesc(d);
        MarkedMore(f, c, k);
        if !more[d] {
          assert k == 2 && c[..3] == c;
          return;
        }
        d := next[d];
        k := k + 1;
      }
    }
  }

  /** Three, unfolded. */
  lemma ThreeIs(free: seq<bool>)
    requires |free| == NUM
    ensures var x := Lowest(free, 0);
            && (x == NUM ==> Three(free) == [])
            && (x < NUM ==>
                  var y := Lowest(free, x + 1);
                  && (y == NUM ==> Three(free) == [])
                  && (y < NUM ==>
                      Three(free) == if Lowest(free, y + 1) == NUM then [] else [x, y, Lowest(free, y + 1)]))
    ensures Marked(free, [], false) == free
  {
  }

  lemma PutBack(free: seq<bool>, x: nat, y: nat)
    requires x <= y < |free| && free[x] && free[y]
    ensures free[x := false][x := true] == free && free[x := false][y := false][x := true][y := true] == free
  {
  }

  lemma MarkedThree(free: seq<bool>, x: nat, y: nat, z: nat)
    requires |free| == NUM && x < y < z < NUM
    ensures free[x := false][y := false][z := false] == Marked(free, [x, y, z], false)
  {
  }

  lemma LowestIs(free: seq<bool>, i: nat, n: nat)
    requires i <= |free| == NUM && n <= NUM && (n < NUM ==> free[n]) && forall k :: 0 <= k < n ==> !free[k]
    requires i <= n
    ensures Lowest(free, i) == n
  {
  }

  /** Once the descriptors up to x are taken, the search goes on behind x. */
  lemma Skip(free: seq<bool>, x: nat, y: nat)
    requires |free| == NUM && x < NUM && y < NUM
    ensures x + 1 <= NUM ==> Lowest(free[x := false], x + 1) == Lowest(free, x + 1)
    ensures x < y ==> Lowest(free[x := false][y := false], y + 1) == Lowest(free, y + 1)
  {
    LowestSame(free, free[x := false], x + 1);
    if x < y { LowestSame(free, free[x := false][y := false], y + 1); }
  }

  lemma {:induction false} LowestSame(a: seq<bool>, b: seq<bool>, i: nat)
    requires i <= |a| == |b| == NUM && forall k :: i <= k < NUM ==> a[k] == b[k]
    ensures Lowest(a, i) == Lowest(b, i)
    decreases NUM - i
  {
    if i < NUM && !a[i] { LowestSame(a, b, i + 1); }
  }

  lemma MarkedMore(free: seq<bool>, c: seq<nat>, k: nat)
    requires |free| == NUM && |c| == 3 && k < 3 && forall j :: 0 <= j < |c| ==> c[j] < NUM
    ensures Marked(free, c[..k], true)[c[k] := true] == Marked(free, c[..k + 1], true)
  {
    assert c[..k + 1] == c[..k] + [c[k]];
  }
}
