/** Pipes (kernel/pipe.c): a ring buffer with 32-bit counters that wrap, used by any number
    of readers and writers that sleep under its lock. */
module Pipe {
  import opened Blocks

  const PIPESIZE: nat := 512

  /** How a stretch under the lock ends: the call returns, sleeps, or returns -1. */
  datatype Outcome = Done | Blocked | Refused

  // ---- the ring -----------------------------------------------------------------

  /** The ring holds the bytes put but not yet taken, each at its number modulo PIPESIZE,
      and the counters are the true counts modulo 2^32. */
  ghost predicate Holds(data: seq<Byte>, nread: nat, nwrite: nat, put: seq<Byte>, taken: nat) {
    && |data| == PIPESIZE
    && taken <= |put| <= taken + PIPESIZE
    && nread == taken % UINT_LIMIT && nwrite == |put| % UINT_LIMIT
    && forall k: nat :: taken <= k < |put| ==> data[k % PIPESIZE] == put[k]
  }

  lemma WrapSlot(n: nat)
    ensures (n % UINT_LIMIT) % PIPESIZE == n % PIPESIZE
    ensures (n + 1) % UINT_LIMIT == (n % UINT_LIMIT + 1) % UINT_LIMIT
  {
    var q := n / UINT_LIMIT;
    assert n == q * UINT_LIMIT + n % UINT_LIMIT;
    assert q * UINT_LIMIT == PIPESIZE * (q * 8388608);
    ModMultiple(n % UINT_LIMIT, q * 8388608);
  }

  lemma ModMultiple(a: nat, k: nat)
    ensures (PIPESIZE * k + a) % PIPESIZE == a % PIPESIZE
  {
  }

  /** Comparing wrapped counters is as good as comparing the true ones. */
  lemma WrapCompare(taken: nat, put: nat)
    requires taken <= put <= taken + PIPESIZE
    ensures put % UINT_LIMIT == (taken % UINT_LIMIT + PIPESIZE) % UINT_LIMIT <==> put == taken + PIPESIZE
    ensures put % UINT_LIMIT == taken % UINT_LIMIT <==> put == taken
  {
  }

  /** Distinct waiting bytes have distinct slots. */
  lemma SlotsApart(a: nat, b: nat)
    requires a < b < a + PIPESIZE
    ensures a % PIPESIZE != b % PIPESIZE
  {
  }

  lemma PutByte(data: seq<Byte>, nread: nat, nwrite: nat, put: seq<Byte>, taken: nat, ch: Byte)
    requires Holds(data, nread, nwrite, put, taken) && |put| < taken + PIPESIZE
    ensures nwrite % PIPESIZE < |data|
    ensures Holds(data[nwrite % PIPESIZE := ch], nread, (nwrite + 1) % UINT_LIMIT, put + [ch], taken)
  {
    WrapSlot(|put|);
    var data' := data[nwrite % PIPESIZE := ch];
    forall k: nat | taken <= k < |put| + 1 ensures data'[k % PIPESIZE] == (put + [ch])[k] {
      if k < |put| { SlotsApart(k, |put|); }
    }
  }

  lemma TakeByte(data: seq<Byte>, nread: nat, nwrite: nat, put: seq<Byte>, taken: nat)
    requires Holds(data, nread, nwrite, put, taken) && taken < |put|
    ensures nread % PIPESIZE < |data| && data[nread % PIPESIZE] == put[taken]
    ensures Holds(data, (nread + 1) % UINT_LIMIT, nwrite, put, taken + 1)
  {
    WrapSlot(taken);
  }

  /** The bytes in the pipe. */
  ghost function Queue(put: seq<Byte>, taken: nat): seq<Byte>
    requires taken <= |put|
  {
    put[taken..]
  }

  /** What pipewrite does between two waits: it puts src[i..j], and stops because it is done
      (byte f of src cannot be copied in), or because the pipe is full. */
  ghost predicate Wrote(put: seq<Byte>, taken: nat, readopen: bool, src: seq<Byte>, i: nat, f: nat, killed: bool,
                        put': seq<Byte>, j: nat, o: Outcome) {
    && i <= j <= |src| && put' == put + src[i..j] && |put'| <= taken + PIPESIZE
    && (o.Done? <==> j == |src| || (j == f && |put'| < taken + PIPESIZE))
    && (!o.Done? ==> |put'| == taken + PIPESIZE)
    && (o.Refused? ==> !readopen || killed)
    && (o.Blocked? ==> readopen && !killed)
  }

  /** What piperead does between two waits: it takes the oldest bytes, up to n. Copying out
      byte f fails, if f < n; that byte is taken all the same. */
  ghost predicate Took(put: seq<Byte>, taken: nat, writeopen: bool, n: nat, f: nat, killed: bool,
                       taken': nat, bytes: seq<Byte>, o: Outcome) {
    && taken' == taken + |bytes| <= |put| && bytes == put[taken..taken'] && |bytes| <= n
    && (o.Done? <==> taken < |put| || !writeopen)
    && (o.Refused? ==> killed) && (o.Blocked? ==> !killed)
    && (!o.Done? ==> bytes == [])
    && (o.Done? && |bytes| < n && |bytes| != f + 1 ==> taken' == |put|)
  }

  class Ring {
    const data: array<Byte>
    var nread: nat
    var nwrite: nat
    var readopen: bool
    var writeopen: bool
    ghost var put: seq<Byte>
    ghost var taken: nat

    ghost predicate Valid()
      reads this, data
    {
      Holds(data[..], nread, nwrite, put, taken)
    }

    /** The fields that pipealloc sets (kernel/pipe.c:33-36). */
    constructor ()
      ensures Valid() && fresh(data) && put == [] && taken == 0 && readopen && writeopen
    {
      data := new Byte[PIPESIZE](_ => 0);
      nread, nwrite := 0, 0;
      readopen, writeopen := true, true;
      put, taken := [], 0;
    }

    /** pipewrite from where it holds the lock to where it sleeps or returns
        (kernel/pipe.c:83-100). */
    method WriteSome(src: seq<Byte>, i: nat, f: nat, killed: bool) returns (j: nat, o: Outcome)
      requires Valid() && i <= |src|
      modifies this, data
      ensures Valid() && taken == old(taken) && readopen == old(readopen) && writeopen == old(writeopen)
      ensures Wrote(old(put), taken, readopen, src, i, f, killed, put, j, o)
    {
      j := i;
      assert src[i..i] == [] && put + [] == put;
      while j < |src|
        invariant Valid() && taken == old(taken) && readopen == old(readopen) && writeopen == old(writeopen)
        invariant i <= j <= |src| && put == old(put) + src[i..j]
      {
        WrapCompare(taken, |put|);
        if nwrite == (nread + PIPESIZE) % UINT_LIMIT {
          o := if !readopen || killed then Refused else Blocked;
          return;
        }
        if j == f { return j, Done; }
        PutByte(data[..], nread, nwrite, put, taken, src[j]);
        data[nwrite % PIPESIZE] := src[j];
        nwrite := (nwrite + 1) % UINT_LIMIT;
        put := put + [src[j]];
        assert src[i..j + 1] == src[i..j] + [src[j]];
        j := j + 1;
      }
      o := Done;
    }

    /** piperead from where it holds the lock to where it sleeps or returns
        (kernel/pipe.c:109-126); count is its result. */
    method ReadSome(n: nat, f: nat, killed: bool) returns (bytes: seq<Byte>, count: nat, o: Outcome)
      requires Valid()
      modifies this
      ensures Valid() && put == old(put) && readopen == old(readopen) && writeopen == old(writeopen)
      ensures Took(put, old(taken), writeopen, n, f, killed, taken, bytes, o)
      ensures count == if |bytes| == f + 1 then f else |bytes|
    {
      bytes, count := [], 0;
      WrapCompare(taken, |put|);
      if nread == nwrite && writeopen {
        o := if killed then Refused else Blocked;
        return;
      }
      o := Done;
      while count < n
        invariant Valid() && put == old(put) && readopen == old(readopen) && writeopen == old(writeopen)
        invariant taken == old(taken) + |bytes| && bytes == old(put)[old(taken)..taken]
        invariant count == |bytes| <= n && |bytes| <= f
        decreases n - count
      {
        WrapCompare(taken, |put|);
        if nread == nwrite { return; }
        TakeByte(data[..], nread, nwrite, put, taken);
        var ch := data[nread % PIPESIZE];
        nread := (nread + 1) % UINT_LIMIT;
        taken := taken + 1;
        bytes := bytes + [ch];
        assert bytes == old(put)[old(taken)..taken];
        if count == f { return; }
        count := count + 1;
      }
    }
  }
}
