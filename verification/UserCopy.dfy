/** Moving bytes between the kernel and user memory, and what a fork's two address spaces
    share: nothing (kernel/vm.c:93-114, 357-405). */
module UserCopy {
  import opened PageTable
  import opened TableSteps
  import opened PhysicalMemory
  import opened Mapping
  import opened UserSpace

  /** Page v of root is mapped for user code. */
  ghost predicate UserPage(tab: Tables, root: nat, v: nat) {
    v < MAXVPN && V(Pte(tab, root, v)) && U(Pte(tab, root, v))
  }

  /** The byte that user code of root sees at virtual address va. */
  ghost function ByteAt(tab: Tables, mem: Bytes, root: nat, va: nat): Byte {
    var p := Page(Pte(tab, root, va / PGSIZE));
    if p in mem && |mem[p]| == PGSIZE then mem[p][va % PGSIZE] else 0
  }

  /** The n bytes from va on can be accessed by user code. */
  ghost predicate Accessible(tab: Tables, root: nat, va: nat, n: nat) {
    forall x: nat :: va <= x < va + n ==> UserPage(tab, root, x / PGSIZE)
  }

  /** In all address spaces together, exactly the bytes va .. va+|bytes|-1 of root changed. */
  ghost predicate Stored(tab: Tables, mem: Bytes, mem': Bytes, roots: set<nat>, root: nat, va: nat, bytes: seq<Byte>) {
    forall r, x: nat :: r in roots && UserPage(tab, r, x / PGSIZE) ==>
      ByteAt(tab, mem', r, x) == if r == root && va <= x < va + |bytes| then bytes[x - va] else ByteAt(tab, mem, r, x)
  }

  /** kernel/vm.c:96-114 on page numbers: 0 when user code has no such page. */
  method WalkAddr(m: Memory, root: nat, v: nat) returns (p: nat)
    requires m.Valid() && IsRoot(m.w, root)
    ensures p == (if UserPage(m.tab, root, v) then Page(Pte(m.tab, root, v)) else 0)
    ensures p != 0 <==> UserPage(m.tab, root, v)
    ensures p != 0 ==> p in m.mem && |m.mem[p]| == PGSIZE
  {
    if v >= MAXVPN { return 0; }
    if UserPage(m.tab, root, v) { UserPageOwned(m.tab, m.w, root, v); }
    match LeafTable(m.tab, root, v)
    case None => return 0;
    case Some(l) =>
      var e := EntryAt(m.tab, l, Px(0, v));
      if !V(e) || !U(e) { return 0; }
      p := Page(e);
  }

  function Spliced(was: seq<Byte>, at: nat, bytes: seq<Byte>): (r: seq<Byte>)
    requires at + |bytes| <= |was|
    ensures |r| == |was|
    ensures forall i :: 0 <= i < |r| ==> r[i] == if at <= i < at + |bytes| then bytes[i - at] else was[i]
  {
    was[..at] + bytes + was[at + |bytes|..]
  }

  lemma SamePage(x: nat, va: nat, v: nat, at: nat, n: nat)
    requires va == v * PGSIZE + at && at < PGSIZE && at + n <= PGSIZE
    ensures va <= x < va + n <==> x / PGSIZE == v && at <= x % PGSIZE < at + n
    ensures x / PGSIZE == v && at <= x % PGSIZE ==> x % PGSIZE - at == x - va
  {
  }

  /** memmove into one user page changes exactly those bytes of one address space: no two
      user pages share memory. */
  lemma StoreInPage(tab: Tables, w: Owners, mem: Bytes, root: nat, va: nat, bytes: seq<Byte>)
    requires Trees(tab, w) && Filled(mem, w) && IsRoot(w, root) && UserPage(tab, root, va / PGSIZE)
    requires va % PGSIZE + |bytes| <= PGSIZE
    ensures Page(Pte(tab, root, va / PGSIZE)) in mem && |mem[Page(Pte(tab, root, va / PGSIZE))]| == PGSIZE
    ensures var p := Page(Pte(tab, root, va / PGSIZE));
            Stored(tab, mem, mem[p := Spliced(mem[p], va % PGSIZE, bytes)], Roots(w), root, va, bytes)
  {
    var p := Page(Pte(tab, root, va / PGSIZE));
    UserPageOwned(tab, w, root, va / PGSIZE);
    var mem' := mem[p := Spliced(mem[p], va % PGSIZE, bytes)];
    forall r, x: nat | r in Roots(w) && UserPage(tab, r, x / PGSIZE)
      ensures ByteAt(tab, mem', r, x) == if r == root && va <= x < va + |bytes| then bytes[x - va]
              else ByteAt(tab, mem, r, x)
    {
      StoreAt(tab, w, mem, root, va, bytes, r, x);
    }
  }

  lemma StoreAt(tab: Tables, w: Owners, mem: Bytes, root: nat, va: nat, bytes: seq<Byte>, r: nat, x: nat)
    requires Trees(tab, w) && Filled(mem, w) && IsRoot(w, root) && UserPage(tab, root, va / PGSIZE)
    requires va % PGSIZE + |bytes| <= PGSIZE && IsRoot(w, r) && UserPage(tab, r, x / PGSIZE)
    ensures Page(Pte(tab, root, va / PGSIZE)) in mem && |mem[Page(Pte(tab, root, va / PGSIZE))]| == PGSIZE
    ensures var p := Page(Pte(tab, root, va / PGSIZE));
            ByteAt(tab, mem[p := Spliced(mem[p], va % PGSIZE, bytes)], r, x) ==
              if r == root && va <= x < va + |bytes| then bytes[x - va] else ByteAt(tab, mem, r, x)
  {
    UserPageOwned(tab, w, root, va / PGSIZE);
    UserPageOwned(tab, w, r, x / PGSIZE);
    hide Trees, Pte, UserPage, Page;
    SamePage(x, va, va / PGSIZE, va % PGSIZE, |bytes|);
  }

  lemma StoredMore(tab: Tables, mem: Bytes, mem1: Bytes, mem2: Bytes, roots: set<nat>, root: nat, va: nat,
                   bytes: seq<Byte>, more: seq<Byte>)
    requires Stored(tab, mem, mem1, roots, root, va, bytes) && Stored(tab, mem1, mem2, roots, root, va + |bytes|, more)
    ensures Stored(tab, mem, mem2, roots, root, va, bytes + more)
  {
    hide UserPage, ByteAt;
  }

  lemma PageAccess(tab: Tables, root: nat, va: nat, n: nat)
    requires UserPage(tab, root, va / PGSIZE) && va % PGSIZE + n <= PGSIZE
    ensures Accessible(tab, root, va, n)
  {
    forall x: nat | va <= x < va + n ensures x / PGSIZE == va / PGSIZE {
      SamePage(x, va, va / PGSIZE, va % PGSIZE, n);
    }
  }

  lemma MoreAccess(tab: Tables, root: nat, va: nat, n: nat, k: nat)
    requires Accessible(tab, root, va, n) && Accessible(tab, root, va + n, k)
    ensures Accessible(tab, root, va, n + k)
  {
  }

  lemma NoAccess(tab: Tables, root: nat, va: nat, n: nat, len: nat)
    requires n < len && !UserPage(tab, root, (va + n) / PGSIZE)
    ensures !Accessible(tab, root, va, len)
  {
    assert !UserPage(tab, root, (va + n) / PGSIZE);
  }

  /** kernel/vm.c:360-380. copyout succeeds exactly when user code can access the whole
      range; either way it has stored a prefix of the bytes and changed nothing else. */
  method CopyOut(m: Memory, root: nat, va: nat, bytes: seq<Byte>) returns (ok: bool, ghost done: nat)
    requires m.Valid() && IsRoot(m.w, root)
    modifies m`mem
    ensures m.Valid()
    ensures ok <==> Accessible(m.tab, root, va, |bytes|)
    ensures done <= |bytes| && (ok ==> done == |bytes|) && Accessible(m.tab, root, va, done)
    ensures Stored(m.tab, old(m.mem), m.mem, Roots(m.w), root, va, bytes[..done])
  {
    hide Trees, FreeOk, Stored, UserPage, Accessible, IsRoot, ByteAt, Pte;
    var i := 0;
    done := 0;
    NothingStored(m.tab, m.mem, Roots(m.w), root, va);
    assert bytes[..0] == [];
    while i < |bytes|
      invariant 0 <= i == done <= |bytes| && m.Valid()
      invariant Accessible(m.tab, root, va, i)
      invariant Stored(m.tab, old(m.mem), m.mem, Roots(m.w), root, va, bytes[..i])
    {
      var v, at := (va + i) / PGSIZE, (va + i) % PGSIZE;
      var p := WalkAddr(m, root, v);
      if p == 0 {
        NoAccess(m.tab, root, va, i, |bytes|);
        return false, done;
      }
      var n := if PGSIZE - at > |bytes| - i then |bytes| - i else PGSIZE - at;
      ghost var before := m.mem;
      StoreInPage(m.tab, m.w, m.mem, root, va + i, bytes[i..i + n]);
      m.mem := m.mem[p := Spliced(m.mem[p], at, bytes[i..i + n])];
      StoredMore(m.tab, old(m.mem), before, m.mem, Roots(m.w), root, va, bytes[..i], bytes[i..i + n]);
      assert bytes[..i] + bytes[i..i + n] == bytes[..i + n];
      PageAccess(m.tab, root, va + i, n);
      MoreAccess(m.tab, root, va, i, n);
      i := i + n;
      done := done + n;
    }
    ok := true;
  }

  lemma NothingStored(tab: Tables, mem: Bytes, roots: set<nat>, root: nat, va: nat)
    ensures Stored(tab, mem, mem, roots, root, va, []) && Accessible(tab, root, va, 0)
  {
  }

  /** The n bytes user code of root sees from va on. */
  ghost function BytesAt(tab: Tables, mem: Bytes, root: nat, va: nat, n: nat): (s: seq<Byte>)
    ensures |s| == n
  {
    seq<Byte>(n, k requires 0 <= k < n => ByteAt(tab, mem, root, va + k))
  }

  lemma LoadFromPage(tab: Tables, mem: Bytes, root: nat, va: nat, n: nat)
    requires Page(Pte(tab, root, va / PGSIZE)) in mem && |mem[Page(Pte(tab, root, va / PGSIZE))]| == PGSIZE
    requires va % PGSIZE + n <= PGSIZE
    ensures BytesAt(tab, mem, root, va, n) == mem[Page(Pte(tab, root, va / PGSIZE))][va % PGSIZE..va % PGSIZE + n]
  {
    var s, t := BytesAt(tab, mem, root, va, n), mem[Page(Pte(tab, root, va / PGSIZE))][va % PGSIZE..va % PGSIZE + n];
    forall k | 0 <= k < n ensures s[k] == t[k] {
      SamePage(va + k, va, va / PGSIZE, va % PGSIZE, n);
      assert (va + k) / PGSIZE == va / PGSIZE && (va + k) % PGSIZE == va % PGSIZE + k;
      assert s[k] == ByteAt(tab, mem, root, va + k);
    }
  }

  lemma BytesMore(tab: Tables, mem: Bytes, root: nat, va: nat, n: nat, k: nat)
    ensures BytesAt(tab, mem, root, va, n) + BytesAt(tab, mem, root, va + n, k) == BytesAt(tab, mem, root, va, n + k)
  {
    hide ByteAt;
  }

  /** kernel/vm.c:385-405. copyin succeeds exactly when user code can access the whole range,
      and has read a prefix of what user code sees there. */
  method CopyIn(m: Memory, root: nat, va: nat, len: nat) returns (ok: bool, bytes: seq<Byte>)
    requires m.Valid() && IsRoot(m.w, root)
    ensures ok <==> Accessible(m.tab, root, va, len)
    ensures |bytes| <= len && (ok ==> |bytes| == len)
    ensures bytes == BytesAt(m.tab, m.mem, root, va, |bytes|)
  {
    hide Trees, FreeOk, UserPage, Accessible, IsRoot, ByteAt, Pte, BytesAt;
    bytes := [];
    NothingStored(m.tab, m.mem, Roots(m.w), root, va);
    assert bytes == BytesAt(m.tab, m.mem, root, va, 0) by { }
    while |bytes| < len
      invariant |bytes| <= len && Accessible(m.tab, root, va, |bytes|)
      invariant bytes == BytesAt(m.tab, m.mem, root, va, |bytes|)
      decreases len - |bytes|
    {
      var i := |bytes|;
      var v, at := (va + i) / PGSIZE, (va + i) % PGSIZE;
      var p := WalkAddr(m, root, v);
      if p == 0 {
        NoAccess(m.tab, root, va, i, len);
        return false, bytes;
      }
      var n := if PGSIZE - at > len - i then len - i else PGSIZE - at;
      LoadFromPage(m.tab, m.mem, root, va + i, n);
      BytesMore(m.tab, m.mem, root, va, i, n);
      PageAccess(m.tab, root, va + i, n);
      MoreAccess(m.tab, root, va, i, n);
      bytes := bytes + m.mem[p][at..at + n];
    }
    ok := true;
  }

  /** copyin after copyout returns the bytes written, and copyin from any other address
      space returns what it did before. */
  lemma CopyInAfterCopyOut(tab: Tables, mem: Bytes, mem': Bytes, roots: set<nat>, root: nat, va: nat, bytes: seq<Byte>,
                           other: nat, x: nat, n: nat)
    requires root in roots && other in roots && other != root && Accessible(tab, root, va, |bytes|) &&
             Accessible(tab, other, x, n)
    requires Stored(tab, mem, mem', roots, root, va, bytes)
    ensures BytesAt(tab, mem', root, va, |bytes|) == bytes
    ensures BytesAt(tab, mem', other, x, n) == BytesAt(tab, mem, other, x, n)
  {
    hide ByteAt, UserPage;
    var s := BytesAt(tab, mem', root, va, |bytes|);
    forall k | 0 <= k < |bytes| ensures s[k] == bytes[k] {
      assert UserPage(tab, root, (va + k) / PGSIZE);
    }
    forall k | 0 <= k < n ensures BytesAt(tab, mem', other, x, n)[k] == BytesAt(tab, mem, other, x, n)[k] {
      assert UserPage(tab, other, (x + k) / PGSIZE);
    }
  }

  /** After a successful uvmcopy the child sees the parent's memory with the parent's
      permissions, and the parent sees what it did. */
  lemma ForkCopies(tab: Tables, w: Owners, mem: Bytes, tab': Tables, w': Owners, mem': Bytes, src: nat, dst: nat,
                   n: nat, va: nat)
    requires Trees(tab, w) && IsRoot(w, src) && IsRoot(w, dst) && src != dst && Filled(mem, w) && Filled(mem', w')
    requires Present(tab, mem, src, n) && OwnRange(tab, w, src, 0, n) && AllMapped(tab, src, 0, n)
    requires Added(tab, w, mem, tab', w', mem', dst, 0, Image(tab, mem, src, n))
    requires va / PGSIZE < n
    ensures UserPage(tab', dst, va / PGSIZE) == UserPage(tab, src, va / PGSIZE) == UserPage(tab', src, va / PGSIZE)
    ensures Flags(Pte(tab', dst, va / PGSIZE)) == Flags(Pte(tab, src, va / PGSIZE))
    ensures ByteAt(tab', mem', dst, va) == ByteAt(tab, mem, src, va) == ByteAt(tab', mem', src, va)
  {
    var v := va / PGSIZE;
    ForkPages(tab, w, mem, tab', w', mem', src, dst, n, v);
    hide V, U, Rwx, Page, Flags, Pte, Added, OwnRange, AllMapped, Present, Trees, Image, Roots;
    SameAccess(Pte(tab, src, v), Pte(tab', dst, v));
  }

  lemma SameAccess(e: nat, c: nat)
    requires Flags(e) == Flags(c)
    ensures V(e) == V(c) && U(e) == U(c)
  {
    FieldsOf(Page(e), Flags(e));
    FieldsOf(Page(c), Flags(c));
    assert e == Page(e) * 1024 + Flags(e) && c == Page(c) * 1024 + Flags(c);
  }

  lemma ForkPages(tab: Tables, w: Owners, mem: Bytes, tab': Tables, w': Owners, mem': Bytes, src: nat, dst: nat, n: nat,
                  v: nat)
    requires Trees(tab, w) && IsRoot(w, src) && IsRoot(w, dst) && src != dst && Filled(mem, w) && Filled(mem', w')
    requires Present(tab, mem, src, n) && OwnRange(tab, w, src, 0, n) && AllMapped(tab, src, 0, n)
    requires Added(tab, w, mem, tab', w', mem', dst, 0, Image(tab, mem, src, n))
    requires v < n
    ensures v < MAXVPN && Pte(tab', src, v) == Pte(tab, src, v) && Page(Pte(tab, src, v)) in mem &&
            Page(Pte(tab', dst, v)) in mem'
    ensures Page(Pte(tab, src, v)) in mem' && mem'[Page(Pte(tab, src, v))] == mem[Page(Pte(tab, src, v))]
    ensures Flags(Pte(tab', dst, v)) == Flags(Pte(tab, src, v))
    ensures mem'[Page(Pte(tab', dst, v))] == mem[Page(Pte(tab, src, v))]
  {
    hide Trees;
    assert src in Roots(w);
    assert NewPageAt(tab', w', mem', dst, 0, Image(tab, mem, src, n), v);
    assert Pte(tab', src, v) == Pte(tab, src, v);
    assert IsNode(w, Page(Pte(tab, src, v)), src, -1, v);
    assert w'[Page(Pte(tab, src, v))] == w[Page(Pte(tab, src, v))];
  }
}
