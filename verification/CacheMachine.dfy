/** Every interleaving of processes using the buffer cache: each critical section of
    bcache.lock and each use of a buffer under its sleep-lock is one step. The cache has
    to agree with a plain array of blocks (kernel/bio.c, kernel/log.c:74-80 and 222-230). */
module CacheMachine {
  import opened Blocks
  import opened BufferCache

  /** order: the ring. waiting and leaving: the processes between bget's critical section and
      acquiresleep, and between releasesleep and brelse's critical section, by buffer. locked:
      buffers whose sleep-lock is held. touched: those changed since log_write or bwrite;
      written: those not changed since bwrite. pinned: buffers pinned for the log. view: the
      plain array of blocks that callers think they use. freed: when each buffer was last let
      go by its last user; clock is ahead of them all. */
  datatype State = State(order: seq<nat>, bufs: seq<Buf>, waiting: multiset<nat>, leaving: multiset<nat>,
                         locked: set<nat>, touched: set<nat>, written: set<nat>, pinned: set<nat>,
                         disk: map<Key, Block>, view: map<Key, Block>, freed: seq<nat>, clock: nat)

  datatype Step =
    | Get(key: Key)
    | Lock(b: nat)
    | Fill(b: nat)
    | Modify(b: nat, data: Block)
    | LogWrite(b: nat)
    | Write(b: nat)
    | Unpin(b: nat)
    | Unlock(b: nat)
    | Put(b: nat)
    | RecoverUnpin(b: nat)

  // ---- steps --------------------------------------------------------------

  ghost predicate Usable(s: State, b: nat) {
    b < |s.bufs| && b in s.locked && s.bufs[b].valid && s.bufs[b].key in s.disk
  }

  ghost predicate InRange(s: State) {
    |s.freed| == |s.bufs| && forall i :: 0 <= i < |s.order| ==> s.order[i] < |s.bufs|
  }

  ghost function Passing(s: State): multiset<nat> { s.waiting + s.leaving }

  /** What a caller may do. Modify, log_write, bwrite and brelse need the sleep-lock. The rule
      for callers is log_write or bwrite between a change and brelse; install_trans calls
      bunpin right after bwrite. RecoverUnpin is that bunpin when recovery runs install_trans:
      the buffer was never pinned. Unlock and Put are the two halves of brelse. */
  ghost predicate Enabled(s: State, t: Step)
    requires InRange(s)
  {
    match t
    case Get(key) =>
      key.dev != 0 && key in s.disk && |Passing(s)| + |s.locked| + 3 < UINT_LIMIT && Chosen(s.order, s.bufs, key).Some?
    case Lock(b) => b < |s.bufs| && s.waiting[b] > 0 && b !in s.locked
    case Fill(b) => b < |s.bufs| && b in s.locked && !s.bufs[b].valid && s.bufs[b].key in s.disk
    case Modify(b, _) => Usable(s, b)
    case LogWrite(b) => Usable(s, b)
    case Write(b) => Usable(s, b)
    case Unpin(b) => Usable(s, b) && b in s.written && b in s.pinned
    case Unlock(b) => Usable(s, b) && b !in s.touched
    case Put(b) => b < |s.bufs| && s.leaving[b] > 0
    case RecoverUnpin(b) => Usable(s, b) && b in s.written && b !in s.pinned
  }

  ghost function WithBuf(s: State, b: nat, x: Buf): State
    requires b < |s.bufs|
  {
    s.(bufs := s.bufs[b := x])
  }

  ghost function Next(s: State, t: Step): State
    requires InRange(s) && Enabled(s, t)
  {
    match t
    case Get(key) =>
      var b := Chosen(s.order, s.bufs, key).buf;
      WithBuf(s, b, Taken(s.bufs[b], key)).(waiting := s.waiting + multiset{b})
    case Lock(b) => s.(waiting := s.waiting - multiset{b}, locked := s.locked + {b})
    case Fill(b) =>
      var k := s.bufs[b].key;
      WithBuf(s, b, Buf(k, true, s.bufs[b].refcnt, s.disk[k]))
    case Modify(b, data) =>
      var k := s.bufs[b].key;
      WithBuf(s, b, Buf(k, true, s.bufs[b].refcnt, data)).(
        touched := s.touched + {b}, written := s.written - {b}, view := s.view[k := data])
    case LogWrite(b) =>
      if b in s.pinned then s.(touched := s.touched - {b})
      else WithBuf(s, b, WithRef(s.bufs[b], Inc(s.bufs[b].refcnt))).(touched := s.touched - {b},
                                                                     pinned := s.pinned + {b})
    case Write(b) =>
      s.(disk := s.disk[s.bufs[b].key := s.bufs[b].data], touched := s.touched - {b}, written := s.written + {b})
    case Unpin(b) => WithBuf(s, b, WithRef(s.bufs[b], Dec(s.bufs[b].refcnt))).(pinned := s.pinned - {b})
    case Unlock(b) =>
      s.(locked := s.locked - {b}, written := s.written - {b}, leaving := s.leaving + multiset{b})
    case Put(b) =>
      var r := Dec(s.bufs[b].refcnt);
      var s' := WithBuf(s, b, WithRef(s.bufs[b], r)).(leaving := s.leaving - multiset{b});
      if r == 0 then s'.(order := Front(s.order, b), freed := s.freed[b := s.clock], clock := s.clock + 1) else s'
    case RecoverUnpin(b) => WithBuf(s, b, WithRef(s.bufs[b], Dec(s.bufs[b].refcnt)))
  }

  /** The steps on counts and ring are the calls of the cache: bget, brelse, bpin and bunpin as
      BufferCache.Bcache specifies them. A buffer's time of release is set to the latest when,
      and only when, brelse drops its last reference. Either write lets the caller go on to
      brelse. */
  lemma StepsAreCalls(s: State, t: Step)
    requires InRange(s) && Enabled(s, t)
    ensures var s' := Next(s, t);
            && (t.Get? ==> var b := Chosen(s.order, s.bufs, t.key).buf;
                           s'.order == s.order && b < |s.bufs| && s'.bufs == s.bufs[b := Taken(s.bufs[b], t.key)])
            && (t.Put? ==> && s'.bufs == s.bufs[t.b := WithRef(s.bufs[t.b], Dec(s.bufs[t.b].refcnt))]
                           && s'.order == if s'.bufs[t.b].refcnt == 0 then Front(s.order, t.b) else s.order)
            && (t.LogWrite? && t.b !in s.pinned ==>
                  s'.order == s.order && s'.bufs == s.bufs[t.b := WithRef(s.bufs[t.b], Inc(s.bufs[t.b].refcnt))])
            && (t.Unpin? || t.RecoverUnpin? ==>
                  s'.order == s.order && s'.bufs == s.bufs[t.b := WithRef(s.bufs[t.b], Dec(s.bufs[t.b].refcnt))])
            && (t.LogWrite? || t.Write? ==> InRange(s') && Enabled(s', Unlock(t.b)))
            && |s'.freed| == |s.freed|
            && forall b: nat :: b < |s.freed| ==>
                 s'.freed[b] == if t == Put(b) && s'.bufs[b].refcnt == 0 then s.clock else s.freed[b]
  {
    if t.Get? { assert Chosen(s.order, s.bufs, t.key).buf in s.order; }
    hide Chosen, Front, Inc, Dec, Taken;
  }

  // ---- the invariant ------------------------------------------------------

  ghost function Count(p: bool): nat { if p then 1 else 0 }

  /** The references a buffer has: processes on their way in or out, its holder and the log. */
  ghost function Refs(b: nat, waiting: multiset<nat>, locked: set<nat>, pinned: set<nat>): nat {
    waiting[b] + Count(b in locked) + Count(b in pinned)
  }

  ghost predicate Counted(bufs: seq<Buf>, waiting: multiset<nat>, locked: set<nat>, pinned: set<nat>) {
    && (forall b: nat :: b < |bufs| ==> bufs[b].refcnt == Refs(b, waiting, locked, pinned))
    && (forall b: nat :: b in waiting || b in locked || b in pinned ==> b < |bufs| && bufs[b].key.dev != 0)
    && |waiting| + |locked| + 2 < UINT_LIMIT
  }

  /** At most one buffer per block of a nonzero device. */
  ghost predicate Unique(bufs: seq<Buf>) {
    forall a, b :: 0 <= a < b < |bufs| && bufs[a].key == bufs[b].key ==> bufs[a].key.dev == 0
  }

  ghost predicate Cached(bufs: seq<Buf>, k: Key) {
    exists b :: 0 <= b < |bufs| && bufs[b].valid && bufs[b].key == k
  }

  /** A valid buffer holds what the plain array holds; so does the disk, except for blocks
      whose buffer is pinned, or is being changed. */
  ghost predicate Agrees(bufs: seq<Buf>, held: set<nat>, disk: map<Key, Block>, view: map<Key, Block>) {
    && disk.Keys == view.Keys
    && (forall b: nat :: b < |bufs| && bufs[b].valid ==>
          && bufs[b].key in view && bufs[b].data == view[bufs[b].key]
          && (disk[bufs[b].key] == view[bufs[b].key] || b in held))
    && (forall k :: k in view && !Cached(bufs, k) ==> disk[k] == view[k])
  }

  /** The ring holds every buffer once, the most recently freed first. */
  ghost predicate Ordered(order: seq<nat>, freed: seq<nat>, clock: nat, n: nat) {
    && |order| == n && |freed| == n
    && (forall i :: 0 <= i < n ==> order[i] < n)
    && (forall b: nat :: b < n ==> b in order)
    && (forall i, j :: 0 <= i < j < n ==> freed[order[i]] > freed[order[j]])
    && (forall i :: 0 <= i < n ==> freed[order[i]] < clock)
  }

  ghost predicate ValidHaveDevices(bufs: seq<Buf>) {
    forall b: nat :: b < |bufs| && bufs[b].valid ==> bufs[b].key.dev != 0
  }

  /** Buffers being changed are locked; buffers written since are on the disk. */
  ghost predicate Flushed(bufs: seq<Buf>, locked: set<nat>, touched: set<nat>, written: set<nat>,
                          disk: map<Key, Block>) {
    && touched <= locked && written <= locked
    && forall b: nat :: b in written && b < |bufs| ==>
         bufs[b].valid && bufs[b].key in disk && disk[bufs[b].key] == bufs[b].data
  }

  ghost predicate Inv(s: State) {
    && Counted(s.bufs, Passing(s), s.locked, s.pinned)
    && Unique(s.bufs)
    && ValidHaveDevices(s.bufs)
    && Flushed(s.bufs, s.locked, s.touched, s.written, s.disk)
    && Agrees(s.bufs, s.touched + s.pinned, s.disk, s.view)
    && Ordered(s.order, s.freed, s.clock, |s.bufs|)
  }

  /** After binit: no buffer in use, none valid. */
  ghost predicate Init(s: State) {
    && (forall b: nat :: b < |s.bufs| ==> s.bufs[b].key == Key(0, 0) && !s.bufs[b].valid && s.bufs[b].refcnt == 0)
    && s.waiting == s.leaving == multiset{} && s.locked == s.touched == s.written == s.pinned == {}
    && s.view == s.disk
    && |s.order| == |s.freed| == s.clock == |s.bufs|
    && (forall i :: 0 <= i < |s.order| ==> s.order[i] == |s.order| - 1 - i && s.freed[i] == i)
  }

  lemma InitInv(s: State)
    requires Init(s)
    ensures Inv(s)
  {
    forall b: nat | b < |s.bufs| ensures b in s.order {
      assert s.order[|s.order| - 1 - b] == b;
    }
  }

  // ---- each step keeps it -------------------------------------------------

  lemma ChosenMiss(order: seq<nat>, bufs: seq<Buf>, key: Key, freed: seq<nat>, clock: nat)
    requires Ordered(order, freed, clock, |bufs|)
    requires Chosen(order, bufs, key).Some? && bufs[Chosen(order, bufs, key).buf].key != key
    ensures forall b: nat :: b < |bufs| ==> bufs[b].key != key
    ensures bufs[Chosen(order, bufs, key).buf].refcnt == 0
  {
    assert Lookup(order, bufs, key).None?;
    forall b: nat | b < |bufs| ensures bufs[b].key != key {
      assert b in order;
      var i :| 0 <= i < |order| && order[i] == b;
    }
  }

  lemma CountedTake(bufs: seq<Buf>, b: nat, taken: Buf, w: multiset<nat>, l: set<nat>, p: set<nat>)
    requires Counted(bufs, w, l, p) && b < |bufs| && |w| + |l| + 3 < UINT_LIMIT
    requires taken.key.dev != 0 && taken.refcnt == bufs[b].refcnt + 1
    ensures Counted(bufs[b := taken], w + multiset{b}, l, p)
  {
    var bufs', w' := bufs[b := taken], w + multiset{b};
    forall c: nat | c < |bufs'| ensures bufs'[c].refcnt == Refs(c, w', l, p) {
      if c != b { assert Refs(c, w', l, p) == Refs(c, w, l, p); }
    }
  }

  lemma GetCounted(s: State, key: Key)
    requires Inv(s) && Enabled(s, Get(key))
    ensures var s' := Next(s, Get(key)); Counted(s'.bufs, Passing(s'), s'.locked, s'.pinned)
  {
    hide Agrees, Unique;
    var b := Chosen(s.order, s.bufs, key).buf;
    assert Passing(s)[b] <= |Passing(s)|;
    if s.bufs[b].key != key {
      ChosenMiss(s.order, s.bufs, key, s.freed, s.clock);
    }
    hide Ordered;
    CountedTake(s.bufs, b, Taken(s.bufs[b], key), Passing(s), s.locked, s.pinned);
    assert s.waiting + multiset{b} + s.leaving == Passing(s) + multiset{b};
  }

  /** Only reference counts change, and who may hold a block that differs from the disk. */
  lemma AgreesSame(bufs: seq<Buf>, bufs': seq<Buf>, held: set<nat>, held': set<nat>,
                   disk: map<Key, Block>, view: map<Key, Block>)
    requires Agrees(bufs, held, disk, view) && |bufs'| == |bufs|
    requires forall b: nat :: b < |bufs| ==> bufs'[b] == WithRef(bufs[b], bufs'[b].refcnt)
    requires forall b: nat :: b < |bufs| && bufs[b].valid && b in held && b !in held' ==>
               bufs[b].key in disk && disk[bufs[b].key] == bufs[b].data
    ensures Agrees(bufs', held', disk, view)
  {
    forall k | Cached(bufs, k) ensures Cached(bufs', k) {
      var b :| 0 <= b < |bufs| && bufs[b].valid && bufs[b].key == k;
      assert bufs'[b].valid && bufs'[b].key == k;
    }
  }

  /** The buffer in use gets new data, which becomes the contents of its block; the disk
      may get it too. */
  lemma AgreesPut(bufs: seq<Buf>, b: nat, filled: Buf, held: set<nat>, disk: map<Key, Block>, disk': map<Key, Block>,
                  view: map<Key, Block>)
    requires Agrees(bufs, held, disk, view) && Unique(bufs)
    requires b < |bufs| && filled.valid && filled.key == bufs[b].key && filled.key.dev != 0
    requires filled.key in disk && (disk' == disk || disk' == disk[filled.key := filled.data])
    requires b in held || disk'[filled.key] == filled.data
    ensures Agrees(bufs[b := filled], held, disk', view[filled.key := filled.data])
  {
    var bufs' := bufs[b := filled];
    assert Cached(bufs', filled.key) by { assert bufs'[b].valid; }
    forall k | Cached(bufs, k) ensures Cached(bufs', k) {
      var a :| 0 <= a < |bufs| && bufs[a].valid && bufs[a].key == k;
      assert bufs'[a].valid && bufs'[a].key == k;
    }
  }

  /** A buffer nobody holds is given to another block. */
  lemma AgreesRecycled(bufs: seq<Buf>, b: nat, filled: Buf, held: set<nat>, disk: map<Key, Block>,
                       view: map<Key, Block>)
    requires Agrees(bufs, held, disk, view)
    requires b < |bufs| && b !in held && !filled.valid
    ensures Agrees(bufs[b := filled], held, disk, view)
  {
    var bufs' := bufs[b := filled];
    forall k | k in view && Cached(bufs, k) ensures Cached(bufs', k) || disk[k] == view[k] {
      var a :| 0 <= a < |bufs| && bufs[a].valid && bufs[a].key == k;
      if a != b { assert bufs'[a].valid && bufs'[a].key == k; }
    }
  }

  lemma GetAgrees(s: State, key: Key)
    requires Inv(s) && Enabled(s, Get(key))
    ensures var s' := Next(s, Get(key)); Agrees(s'.bufs, s'.touched + s'.pinned, s'.disk, s'.view)
  {
    hide Unique, ValidHaveDevices;
    var s' := Next(s, Get(key));
    var b := Chosen(s.order, s.bufs, key).buf;
    if s.bufs[b].key != key {
      ChosenMiss(s.order, s.bufs, key, s.freed, s.clock);
      assert b !in s.locked && b !in s.pinned;
      AgreesRecycled(s.bufs, b, s'.bufs[b], s.touched + s.pinned, s.disk, s.view);
    } else {
      AgreesSame(s.bufs, s'.bufs, s.touched + s.pinned, s.touched + s.pinned, s.disk, s.view);
    }
  }

  lemma GetKeeps(s: State, key: Key)
    requires Inv(s) && Enabled(s, Get(key))
    ensures var s' := Next(s, Get(key));
            Unique(s'.bufs) && ValidHaveDevices(s'.bufs) && Flushed(s'.bufs, s'.locked, s'.touched, s'.written, s'.disk)
  {
    hide Agrees;
    var b := Chosen(s.order, s.bufs, key).buf;
    if s.bufs[b].key != key {
      ChosenMiss(s.order, s.bufs, key, s.freed, s.clock);
      assert b !in s.locked;
    }
  }

  lemma FillAgrees(bufs: seq<Buf>, b: nat, held: set<nat>, disk: map<Key, Block>, view: map<Key, Block>)
    requires Agrees(bufs, held, disk, view) && Unique(bufs) && ValidHaveDevices(bufs)
    requires b < |bufs| && !bufs[b].valid && bufs[b].key.dev != 0 && bufs[b].key in disk
    ensures Agrees(bufs[b := Buf(bufs[b].key, true, bufs[b].refcnt, disk[bufs[b].key])], held, disk, view)
  {
    var k := bufs[b].key;
    assert !Cached(bufs, k);
    AgreesPut(bufs, b, Buf(k, true, bufs[b].refcnt, disk[k]), held, disk, disk, view);
    assert view[k := disk[k]] == view;
  }

  lemma FillInv(s: State, b: nat)
    requires Inv(s) && Enabled(s, Fill(b))
    ensures Inv(Next(s, Fill(b)))
  {
    LockedHasDevice(s, b);
    FillAgrees(s.bufs, b, s.touched + s.pinned, s.disk, s.view);
    var k := s.bufs[b].key;
    SameKeys(s, b, Buf(k, true, s.bufs[b].refcnt, s.disk[k]));
    FillFlushed(s.bufs, b, s.locked, s.touched, s.written, s.disk);
    hide Agrees, Ordered, Counted, Unique, ValidHaveDevices, Flushed;
  }

  lemma LockedHasDevice(s: State, b: nat)
    requires Inv(s) && b in s.locked
    ensures b < |s.bufs| && s.bufs[b].key.dev != 0
  {
    hide Agrees, Ordered, Flushed, Unique, ValidHaveDevices;
  }

  lemma FillFlushed(bufs: seq<Buf>, b: nat, locked: set<nat>, touched: set<nat>, written: set<nat>,
                    disk: map<Key, Block>)
    requires Flushed(bufs, locked, touched, written, disk) && b < |bufs| && !bufs[b].valid && bufs[b].key in disk
    ensures Flushed(bufs[b := Buf(bufs[b].key, true, bufs[b].refcnt, disk[bufs[b].key])], locked, touched, written,
                    disk)
  {
  }

  lemma ModifyAgrees(s: State, b: nat, data: Block)
    requires Inv(s) && Enabled(s, Modify(b, data))
    ensures var s' := Next(s, Modify(b, data)); Agrees(s'.bufs, s'.touched + s'.pinned, s'.disk, s'.view)
  {
    assert InRange(s) && s.bufs[b].key.dev != 0;
    hide Ordered, Counted, Flushed;
    var held := s.touched + {b} + s.pinned;
    AgreesSame(s.bufs, s.bufs, s.touched + s.pinned, held, s.disk, s.view);
    AgreesPut(s.bufs, b, Buf(s.bufs[b].key, true, s.bufs[b].refcnt, data), held, s.disk, s.disk, s.view);
  }

  /** The buffer's block number and count stay the same. */
  lemma SameKeys(s: State, b: nat, x: Buf)
    requires Inv(s) && b < |s.bufs| && x.key == s.bufs[b].key && x.refcnt == s.bufs[b].refcnt && x.key.dev != 0
    ensures Counted(s.bufs[b := x], Passing(s), s.locked, s.pinned) && Unique(s.bufs[b := x]) &&
            ValidHaveDevices(s.bufs[b := x])
  {
    hide Agrees, Ordered, Flushed;
  }

  lemma ModifyInv(s: State, b: nat, data: Block)
    requires Inv(s) && Enabled(s, Modify(b, data))
    ensures Inv(Next(s, Modify(b, data)))
  {
    assert InRange(s) && s.bufs[b].key.dev != 0;
    ModifyAgrees(s, b, data);
    SameKeys(s, b, Buf(s.bufs[b].key, true, s.bufs[b].refcnt, data));
    hide Agrees, Ordered, Counted, Unique, ValidHaveDevices;
  }

  lemma WriteAgrees(s: State, b: nat)
    requires Inv(s) && Enabled(s, Write(b))
    ensures var s' := Next(s, Write(b)); Agrees(s'.bufs, s'.touched + s'.pinned, s'.disk, s'.view)
  {
    hide Ordered, Counted;
    var disk' := s.disk[s.bufs[b].key := s.bufs[b].data];
    AgreesPut(s.bufs, b, s.bufs[b], s.touched + s.pinned, s.disk, disk', s.view);
    assert s.bufs[b := s.bufs[b]] == s.bufs;
    assert s.view[s.bufs[b].key := s.bufs[b].data] == s.view;
    AgreesSame(s.bufs, s.bufs, s.touched + s.pinned, s.touched - {b} + s.pinned, disk', s.view);
  }

  lemma WriteInv(s: State, b: nat)
    requires Inv(s) && Enabled(s, Write(b))
    ensures Inv(Next(s, Write(b)))
  {
    WriteAgrees(s, b);
    WriteFlushed(s.bufs, b, s.locked, s.touched, s.written, s.disk);
    hide Agrees, Ordered, Counted, Unique, ValidHaveDevices, Flushed;
  }

  lemma WriteFlushed(bufs: seq<Buf>, b: nat, locked: set<nat>, touched: set<nat>, written: set<nat>,
                     disk: map<Key, Block>)
    requires Flushed(bufs, locked, touched, written, disk) && b < |bufs| && bufs[b].valid && b in locked
    requires forall c: nat :: c in written && c < |bufs| && bufs[c].key == bufs[b].key ==> bufs[c].data == bufs[b].data
    ensures Flushed(bufs, locked, touched - {b}, written + {b}, disk[bufs[b].key := bufs[b].data])
  {
  }

  ghost predicate Fronted(order: seq<nat>, k: nat, o: seq<nat>)
    requires k < |order|
  {
    && |o| == |order| && o[0] == order[k]
    && (forall i :: 0 < i <= k ==> o[i] == order[i - 1])
    && (forall i :: k < i < |o| ==> o[i] == order[i])
  }

  lemma FrontedFresh(order: seq<nat>, freed: seq<nat>, clock: nat, n: nat, k: nat, o: seq<nat>, i: nat)
    requires Ordered(order, freed, clock, n) && k < n && Fronted(order, k, o) && 0 < i < n
    ensures o[i] < n && o[i] != order[k] && freed[o[i]] < clock
  {
    assert freed[o[i]] != freed[order[k]];
  }

  lemma FrontedFreed(order: seq<nat>, freed: seq<nat>, clock: nat, n: nat, k: nat, o: seq<nat>, i: nat, j: nat)
    requires Ordered(order, freed, clock, n) && k < n && Fronted(order, k, o) && 0 < i < j < n
    ensures o[i] < n && o[j] < n && freed[o[i]] > freed[o[j]]
  {
    assert o[i] == order[if i <= k then i - 1 else i] && o[j] == order[if j <= k then j - 1 else j];
  }

  lemma FrontedIn(order: seq<nat>, freed: seq<nat>, clock: nat, n: nat, k: nat, o: seq<nat>, a: nat)
    requires Ordered(order, freed, clock, n) && k < n && Fronted(order, k, o) && a < n
    ensures a in o
  {
    assert a in order;
    var i :| 0 <= i < n && order[i] == a;
    assert a == o[if i == k then 0 else if i < k then i + 1 else i];
  }

  lemma FrontedOrdered(order: seq<nat>, freed: seq<nat>, clock: nat, n: nat, k: nat, o: seq<nat>)
    requires Ordered(order, freed, clock, n) && k < n && Fronted(order, k, o)
    ensures Ordered(o, freed[order[k] := clock], clock + 1, n)
  {
    var b := order[k];
    var freed' := freed[b := clock];
    assert |o| == n && |freed'| == n && o[0] == b < n;
    forall i | 0 <= i < n ensures o[i] < n && freed'[o[i]] < clock + 1 {
      if i > 0 { FrontedFresh(order, freed, clock, n, k, o, i); }
    }
    forall i, j | 0 <= i < j < n ensures freed'[o[i]] > freed'[o[j]] {
      FrontedFresh(order, freed, clock, n, k, o, j);
      if i > 0 {
        FrontedFresh(order, freed, clock, n, k, o, i);
        FrontedFreed(order, freed, clock, n, k, o, i, j);
      }
    }
    forall a: nat | a < n ensures a in o {
      FrontedIn(order, freed, clock, n, k, o, a);
    }
    hide Fronted;
  }

  lemma OrderedDistinct(order: seq<nat>, freed: seq<nat>, clock: nat, n: nat)
    requires Ordered(order, freed, clock, n)
    ensures Distinct(order)
  {
    forall i, j | 0 <= i < j < n ensures order[i] != order[j] {
      assert freed[order[i]] > freed[order[j]];
    }
  }

  lemma FrontIsFronted(order: seq<nat>, k: nat)
    requires Distinct(order) && k < |order|
    ensures Fronted(order, k, Front(order, order[k]))
  {
    RemovedAt(order, k);
    hide Removed, Fronted, Distinct;
    FrontedConcat(order, k, Front(order, order[k]));
  }

  lemma FrontedConcat(order: seq<nat>, k: nat, o: seq<nat>)
    requires k < |order| && o == [order[k]] + Without(order, k)
    ensures Fronted(order, k, o)
  {
  }

  lemma FrontOrdered(order: seq<nat>, freed: seq<nat>, clock: nat, n: nat, b: nat)
    requires Ordered(order, freed, clock, n) && b < n
    ensures Ordered(Front(order, b), freed[b := clock], clock + 1, n)
  {
    assert b in order;
    var k: nat :| k < |order| && order[k] == b;
    hide Front, Distinct, Fronted;
    OrderedDistinct(order, freed, clock, n);
    FrontIsFronted(order, k);
    FrontedOrdered(order, freed, clock, n, k, Front(order, b));
  }

  /** One buffer gains or loses a reference. */
  lemma CountedRef(bufs: seq<Buf>, b: nat, w: multiset<nat>, l: set<nat>, p: set<nat>,
                   refcnt: nat, w': multiset<nat>, l': set<nat>, p': set<nat>)
    requires Counted(bufs, w, l, p) && b < |bufs| && bufs[b].key.dev != 0
    requires |w'| + |l'| + 2 < UINT_LIMIT && refcnt == Refs(b, w', l', p')
    requires forall c: nat :: c != b ==> w'[c] == w[c] && (c in l' <==> c in l) && (c in p' <==> c in p)
    ensures Counted(bufs[b := WithRef(bufs[b], refcnt)], w', l', p')
  {
    var bufs' := bufs[b := WithRef(bufs[b], refcnt)];
    forall c: nat | c < |bufs'| ensures bufs'[c].refcnt == Refs(c, w', l', p') {
      if c != b { assert Refs(c, w', l', p') == Refs(c, w, l, p); }
    }
  }

  lemma LockCounted(s: State, b: nat)
    requires Counted(s.bufs, Passing(s), s.locked, s.pinned) && b < |s.bufs| && s.waiting[b] > 0 && b !in s.locked
    ensures Counted(s.bufs, s.waiting - multiset{b} + s.leaving, s.locked + {b}, s.pinned)
  {
    var w := s.waiting - multiset{b} + s.leaving;
    assert w + multiset{b} == Passing(s);
    CountedRef(s.bufs, b, Passing(s), s.locked, s.pinned, s.bufs[b].refcnt, w, s.locked + {b}, s.pinned);
    assert s.bufs[b := WithRef(s.bufs[b], s.bufs[b].refcnt)] == s.bufs;
  }

  lemma LockInv(s: State, b: nat)
    requires Inv(s) && Enabled(s, Lock(b))
    ensures Inv(Next(s, Lock(b)))
  {
    LockCounted(s, b);
    assert InRange(s);
    hide Agrees, Ordered, Unique, Counted, ValidHaveDevices;
  }

  lemma UnlockCounted(s: State, b: nat)
    requires Counted(s.bufs, Passing(s), s.locked, s.pinned) && b in s.locked
    ensures Counted(s.bufs, s.waiting + (s.leaving + multiset{b}), s.locked - {b}, s.pinned)
  {
    var w := s.waiting + (s.leaving + multiset{b});
    assert w == Passing(s) + multiset{b};
    CountedRef(s.bufs, b, Passing(s), s.locked, s.pinned, s.bufs[b].refcnt, w, s.locked - {b}, s.pinned);
    assert s.bufs[b := WithRef(s.bufs[b], s.bufs[b].refcnt)] == s.bufs;
  }

  lemma UnlockInv(s: State, b: nat)
    requires Inv(s) && Enabled(s, Unlock(b))
    ensures Inv(Next(s, Unlock(b)))
  {
    UnlockCounted(s, b);
    assert InRange(s);
    hide Agrees, Ordered, Unique, Counted, ValidHaveDevices;
  }

  lemma UniqueRef(bufs: seq<Buf>, b: nat, refcnt: nat)
    requires Unique(bufs) && ValidHaveDevices(bufs) && b < |bufs|
    ensures Unique(bufs[b := WithRef(bufs[b], refcnt)]) && ValidHaveDevices(bufs[b := WithRef(bufs[b], refcnt)])
  {
  }

  lemma PinCounted(bufs: seq<Buf>, b: nat, w: multiset<nat>, l: set<nat>, p: set<nat>)
    requires Counted(bufs, w, l, p) && b in l
    ensures b !in p ==> Counted(bufs[b := WithRef(bufs[b], Inc(bufs[b].refcnt))], w, l, p + {b})
    ensures b in p ==> Counted(bufs[b := WithRef(bufs[b], Dec(bufs[b].refcnt))], w, l, p - {b})
  {
    assert w[b] <= |w|;
    if b in p {
      CountedRef(bufs, b, w, l, p, Dec(bufs[b].refcnt), w, l, p - {b});
    } else {
      CountedRef(bufs, b, w, l, p, Inc(bufs[b].refcnt), w, l, p + {b});
    }
  }

  lemma FlushedRef(bufs: seq<Buf>, b: nat, r: nat, l: set<nat>, t: set<nat>, w: set<nat>, disk: map<Key, Block>)
    requires Flushed(bufs, l, t, w, disk) && b < |bufs|
    ensures Flushed(bufs[b := WithRef(bufs[b], r)], l, t, w, disk) &&
            Flushed(bufs[b := WithRef(bufs[b], r)], l, t - {b}, w, disk)
    ensures Flushed(bufs, l, t - {b}, w, disk)
  {
  }

  lemma LogWriteAgrees(s: State, b: nat)
    requires Inv(s) && Enabled(s, LogWrite(b))
    ensures var s' := Next(s, LogWrite(b)); Agrees(s'.bufs, s'.touched + s'.pinned, s'.disk, s'.view)
  {
    assert InRange(s);
    hide Unique, ValidHaveDevices, Ordered, Counted, Flushed, Chosen, Front, Inc, Dec;
    var s' := Next(s, LogWrite(b));
    AgreesSame(s.bufs, s'.bufs, s.touched + s.pinned, s'.touched + s'.pinned, s.disk, s.view);
  }

  lemma LogWriteInv(s: State, b: nat)
    requires Inv(s) && Enabled(s, LogWrite(b))
    ensures Inv(Next(s, LogWrite(b)))
  {
    assert InRange(s);
    LogWriteAgrees(s, b);
    UniqueRef(s.bufs, b, Inc(s.bufs[b].refcnt));
    PinCounted(s.bufs, b, Passing(s), s.locked, s.pinned);
    FlushedRef(s.bufs, b, Inc(s.bufs[b].refcnt), s.locked, s.touched, s.written, s.disk);
    hide Unique, ValidHaveDevices, Ordered, Counted, Flushed, Agrees;
  }

  lemma UnpinAgrees(s: State, b: nat)
    requires Inv(s) && Enabled(s, Unpin(b))
    ensures var s' := Next(s, Unpin(b)); Agrees(s'.bufs, s'.touched + s'.pinned, s'.disk, s'.view)
  {
    assert InRange(s);
    hide Unique, ValidHaveDevices, Ordered, Counted;
    var s' := Next(s, Unpin(b));
    AgreesSame(s.bufs, s'.bufs, s.touched + s.pinned, s'.touched + s'.pinned, s.disk, s.view);
  }

  lemma UnpinInv(s: State, b: nat)
    requires Inv(s) && Enabled(s, Unpin(b))
    ensures Inv(Next(s, Unpin(b)))
  {
    assert InRange(s);
    UnpinAgrees(s, b);
    UniqueRef(s.bufs, b, Dec(s.bufs[b].refcnt));
    PinCounted(s.bufs, b, Passing(s), s.locked, s.pinned);
    FlushedRef(s.bufs, b, Dec(s.bufs[b].refcnt), s.locked, s.touched, s.written, s.disk);
    hide Unique, ValidHaveDevices, Ordered, Counted, Flushed, Agrees;
  }

  lemma PutCounted(s: State, b: nat)
    requires Inv(s) && Enabled(s, Put(b))
    ensures var s' := Next(s, Put(b)); Counted(s'.bufs, Passing(s'), s'.locked, s'.pinned)
  {
    hide Agrees, Ordered, Unique, Flushed, ValidHaveDevices, Front;
    var w := s.waiting + (s.leaving - multiset{b});
    assert w + multiset{b} == Passing(s) && Passing(s)[b] <= |Passing(s)|;
    CountedRef(s.bufs, b, Passing(s), s.locked, s.pinned, Dec(s.bufs[b].refcnt), w, s.locked, s.pinned);
  }

  lemma PutAgrees(s: State, b: nat)
    requires Inv(s) && Enabled(s, Put(b))
    ensures var s' := Next(s, Put(b));
            && Agrees(s'.bufs, s'.touched + s'.pinned, s'.disk, s'.view)
            && Flushed(s'.bufs, s'.locked, s'.touched, s'.written, s'.disk)
            && Unique(s'.bufs) && ValidHaveDevices(s'.bufs)
  {
    hide Counted, Ordered;
    UniqueRef(s.bufs, b, Dec(s.bufs[b].refcnt));
    hide Unique, ValidHaveDevices;
    var bufs' := s.bufs[b := WithRef(s.bufs[b], Dec(s.bufs[b].refcnt))];
    AgreesSame(s.bufs, bufs', s.touched + s.pinned, s.touched + s.pinned, s.disk, s.view);
  }

  lemma PutInv(s: State, b: nat)
    requires Inv(s) && Enabled(s, Put(b))
    ensures Inv(Next(s, Put(b)))
  {
    PutCounted(s, b);
    PutAgrees(s, b);
    PutOrdered(s, b);
    hide Counted, Agrees, Ordered, Flushed, Unique, ValidHaveDevices, Next, Enabled;
  }

  lemma InvInRange(s: State)
    requires Inv(s)
    ensures InRange(s) && |s.freed| == |s.bufs|
  {
    hide Counted, Agrees, Flushed, Unique, ValidHaveDevices;
  }

  lemma PutOrdered(s: State, b: nat)
    requires Inv(s) && Enabled(s, Put(b))
    ensures var s' := Next(s, Put(b)); Ordered(s'.order, s'.freed, s'.clock, |s'.bufs|)
  {
    hide Ordered, Front, Counted, Agrees, Flushed, Unique, ValidHaveDevices, InRange;
    InvInRange(s);
    FrontOrdered(s.order, s.freed, s.clock, |s.bufs|, b);
  }

  /** The bunpin of recovery takes away a reference that is not there. */
  lemma RecoverUnpinBreaks(s: State, b: nat)
    requires Inv(s) && Enabled(s, RecoverUnpin(b))
    ensures !Inv(Next(s, RecoverUnpin(b)))
  {
    assert s.bufs[b].refcnt == Refs(b, Passing(s), s.locked, s.pinned) >= 1;
    assert Passing(s)[b] <= |Passing(s)|;
    assert Next(s, RecoverUnpin(b)).bufs[b].refcnt == s.bufs[b].refcnt - 1;
  }

  /** Every step of every process keeps the invariant, but for the bunpin of recovery, which
      always breaks it. */
  lemma StepInv(s: State, t: Step)
    requires Inv(s) && Enabled(s, t)
    ensures Inv(Next(s, t)) <==> !t.RecoverUnpin?
  {
    hide Counted, Unique, Agrees, Flushed, ValidHaveDevices;
    match t
    case Get(key) => GetCounted(s, key); GetAgrees(s, key); GetKeeps(s, key);
    case Fill(b) => FillInv(s, b);
    case Modify(b, data) => ModifyInv(s, b, data);
    case Write(b) => WriteInv(s, b);
    case Lock(b) => LockInv(s, b);
    case LogWrite(b) => LogWriteInv(s, b);
    case Unpin(b) => UnpinInv(s, b);
    case Unlock(b) => UnlockInv(s, b);
    case Put(b) => PutInv(s, b);
    case RecoverUnpin(b) => RecoverUnpinBreaks(s, b);
  }

  // ---- what holds in every run ---------------------------------------------

  ghost predicate Run(ss: seq<State>, ts: seq<Step>) {
    && |ss| == |ts| + 1 && Init(ss[0])
    && forall i :: 0 <= i < |ts| ==> Goes(ss[i], ts[i], ss[i + 1])
  }

  lemma RunStarts(ss: seq<State>, ts: seq<Step>)
    requires Run(ss, ts)
    ensures |ss| == |ts| + 1 && Init(ss[0]) && ss[0].view == ss[0].disk
  {
  }

  lemma RunGoes(ss: seq<State>, ts: seq<Step>, i: nat)
    requires Run(ss, ts) && i < |ts|
    ensures |ss| == |ts| + 1 && Goes(ss[i], ts[i], ss[i + 1])
  {
  }

  ghost predicate Goes(s: State, t: Step, s': State) {
    InRange(s) && Enabled(s, t) && s' == Next(s, t)
  }

  /** The log header was empty at boot: recovery installed nothing. */
  ghost predicate CleanBoot(ts: seq<Step>) {
    forall i :: 0 <= i < |ts| ==> !ts[i].RecoverUnpin?
  }

  lemma GoesInv(s: State, t: Step, s': State)
    requires Inv(s) && Goes(s, t, s') && !t.RecoverUnpin?
    ensures Inv(s')
  {
    hide Inv, Next;
    StepInv(s, t);
  }

  lemma {:induction false} RunInv(ss: seq<State>, ts: seq<Step>, i: nat)
    requires Run(ss, ts) && i < |ss| && CleanBoot(ts)
    ensures Inv(ss[i])
  {
    hide Inv, Goes, Run, Init;
    RunStarts(ss, ts);
    if i == 0 {
      InitInv(ss[0]);
    } else {
      RunInv(ss, ts, i - 1);
      RunGoes(ss, ts, i - 1);
      GoesInv(ss[i - 1], ts[i - 1], ss[i]);
    }
  }

  ghost predicate Stores(s: State, t: Step, k: Key) {
    t.Modify? && t.b < |s.bufs| && s.bufs[t.b].key == k
  }

  /** The plain array: what was last stored in block k, by the first i steps of a run. */
  ghost function LastStored(ss: seq<State>, ts: seq<Step>, k: Key, i: nat): Block
    requires Run(ss, ts) && i <= |ts| && k in ss[0].disk
  {
    if i == 0 then ss[0].disk[k]
    else if Stores(ss[i - 1], ts[i - 1], k) then ts[i - 1].data
    else LastStored(ss, ts, k, i - 1)
  }

  lemma ViewStep(s: State, t: Step, s': State, k: Key)
    requires Goes(s, t, s') && k in s.view
    ensures k in s'.view && s'.view[k] == if Stores(s, t, k) then t.data else s.view[k]
  {
  }

  lemma LastStoredStep(ss: seq<State>, ts: seq<Step>, k: Key, i: nat)
    requires Run(ss, ts) && i < |ts| && k in ss[0].disk
    ensures LastStored(ss, ts, k, i + 1) == if Stores(ss[i], ts[i], k) then ts[i].data else LastStored(ss, ts, k, i)
  {
    hide Run, Stores;
  }

  lemma {:induction false} ViewIsLastStored(ss: seq<State>, ts: seq<Step>, k: Key, i: nat)
    requires Run(ss, ts) && i <= |ts| && k in ss[0].disk
    ensures k in ss[i].view && ss[i].view[k] == LastStored(ss, ts, k, i)
  {
    hide Goes, Stores, Run, Init;
    RunStarts(ss, ts);
    if i > 0 {
      ViewIsLastStored(ss, ts, k, i - 1);
      RunGoes(ss, ts, i - 1);
      ViewStep(ss[i - 1], ts[i - 1], ss[i], k);
      hide LastStored;
      LastStoredStep(ss, ts, k, i - 1);
    }
  }

  /** bread returns what a plain array of blocks would: in every run that begins with an empty
      log header, a buffer that is filled holds the data last stored in its block, by whichever process. */
  lemma BreadReturnsLastStored(ss: seq<State>, ts: seq<Step>, i: nat, b: nat)
    requires Run(ss, ts) && i <= |ts| && CleanBoot(ts)
    requires b < |ss[i].bufs| && ss[i].bufs[b].valid
    ensures ss[i].bufs[b].key in ss[0].disk
    ensures ss[i].bufs[b].data == LastStored(ss, ts, ss[i].bufs[b].key, i)
  {
    RunInv(ss, ts, i);
    SameBlocks(ss, ts, i);
    ViewIsLastStored(ss, ts, ss[i].bufs[b].key, i);
  }

  lemma StepKeepsBlocks(s: State, t: Step, s': State)
    requires Inv(s) && Goes(s, t, s')
    ensures s'.view.Keys == s.view.Keys
  {
    hide Counted, Ordered, Unique, Flushed;
  }

  lemma {:induction false} SameBlocks(ss: seq<State>, ts: seq<Step>, i: nat)
    requires Run(ss, ts) && i <= |ts| && CleanBoot(ts)
    ensures ss[i].view.Keys == ss[0].disk.Keys
  {
    hide Inv, Goes, Run, Init;
    RunStarts(ss, ts);
    if i > 0 {
      SameBlocks(ss, ts, i - 1);
      RunGoes(ss, ts, i - 1);
      RunInv(ss, ts, i - 1);
      StepKeepsBlocks(ss[i - 1], ts[i - 1], ss[i]);
    }
  }

  /** When no buffer is being changed or pinned, the disk itself is the plain array. */
  lemma QuiescentDisk(s: State)
    requires Inv(s) && s.touched == {} && s.pinned == {}
    ensures s.disk == s.view
  {
    forall k | k in s.view ensures s.disk[k] == s.view[k] {
      if Cached(s.bufs, k) {
        var b :| 0 <= b < |s.bufs| && s.bufs[b].valid && s.bufs[b].key == k;
      }
    }
  }

  /** Somebody uses buffer b: a process on its way in or out, its holder, or the log. */
  ghost predicate InUse(s: State, b: nat) {
    b in s.pinned || b in s.locked || b in Passing(s)
  }

  lemma UsedIsCounted(s: State, b: nat)
    requires Inv(s) && InUse(s, b)
    ensures b < |s.bufs| && s.bufs[b].refcnt > 0
  {
    hide Unique, ValidHaveDevices, Flushed, Agrees, Ordered;
  }

  /** bget does not take a buffer in use away from its block. */
  lemma GetKeepsUsed(order: seq<nat>, bufs: seq<Buf>, key: Key, freed: seq<nat>, clock: nat, b: nat)
    requires Ordered(order, freed, clock, |bufs|) && Chosen(order, bufs, key).Some? && b < |bufs| && bufs[b].refcnt > 0
    ensures var c := Chosen(order, bufs, key).buf;
            c < |bufs| && bufs[c := Taken(bufs[c], key)][b].key == bufs[b].key &&
            (bufs[b].valid ==> bufs[c := Taken(bufs[c], key)][b].valid)
  {
    var c := Chosen(order, bufs, key).buf;
    assert c in order;
    if bufs[c].key != key { ChosenMiss(order, bufs, key, freed, clock); }
    hide Chosen;
  }

  /** No other step gives a buffer another block. */
  lemma OthersKeepBlock(s: State, t: Step, s': State, b: nat)
    requires Goes(s, t, s') && !t.Get? && b < |s.bufs|
    ensures |s'.bufs| == |s.bufs| && s'.bufs[b].key == s.bufs[b].key && (s.bufs[b].valid ==> s'.bufs[b].valid)
  {
    hide Chosen, Front, Inc, Dec;
  }

  lemma GetGoes(s: State, key: Key, s': State)
    requires Goes(s, Get(key), s')
    ensures Chosen(s.order, s.bufs, key).Some?
    ensures var c := Chosen(s.order, s.bufs, key).buf; c < |s.bufs| && s'.bufs == s.bufs[c := Taken(s.bufs[c], key)]
  {
    assert Chosen(s.order, s.bufs, key).buf in s.order;
    hide Chosen, Taken;
  }

  lemma RingOrdered(s: State)
    requires Inv(s)
    ensures Ordered(s.order, s.freed, s.clock, |s.bufs|) && InRange(s)
  {
  }

  lemma UsedKeepsBlock(s: State, t: Step, s': State, b: nat)
    requires Inv(s) && Goes(s, t, s') && b < |s.bufs| && s.bufs[b].refcnt > 0
    ensures |s'.bufs| == |s.bufs| && s'.bufs[b].key == s.bufs[b].key && (s.bufs[b].valid ==> s'.bufs[b].valid)
  {
    hide Inv, Goes, Ordered;
    RingOrdered(s);
    if t.Get? {
      GetGoes(s, t.key, s');
      hide Chosen, Taken;
      GetKeepsUsed(s.order, s.bufs, t.key, s.freed, s.clock, b);
    } else {
      OthersKeepBlock(s, t, s', b);
    }
  }

  lemma PinGoes(s: State, t: Step, s': State, b: nat)
    requires Goes(s, t, s') && b in s.pinned && b !in s'.pinned
    ensures t == Unpin(b) && b in s.written && b < |s.bufs| && s.bufs[b].valid
  {
    hide Chosen;
  }

  lemma WrittenIsOnDisk(s: State, b: nat)
    requires Inv(s) && b in s.written && b < |s.bufs| && s.bufs[b].valid
    ensures s.bufs[b].key in s.disk && s.bufs[b].key in s.view && s.disk[s.bufs[b].key] == s.view[s.bufs[b].key]
  {
    hide Unique, ValidHaveDevices, Counted, Ordered;
  }

  /** A buffer that is referenced, locked or pinned for the log keeps its block whatever
      others do, and when its pin goes the disk holds the block's current contents: so a
      logged block is not recycled before the log has written it home. */
  lemma PinnedIsKept(s: State, t: Step, s': State, b: nat)
    requires Inv(s) && Goes(s, t, s') && InUse(s, b)
    ensures b < |s.bufs| == |s'.bufs| && s'.bufs[b].key == s.bufs[b].key
    ensures s.bufs[b].valid ==> s'.bufs[b].valid
    ensures b in s.pinned && b !in s'.pinned ==>
              var k := s.bufs[b].key; k in s.disk && k in s.view && s.disk[k] == s.view[k]
  {
    hide Inv, Goes, InUse;
    UsedIsCounted(s, b);
    UsedKeepsBlock(s, t, s', b);
    if b in s.pinned && b !in s'.pinned {
      PinGoes(s, t, s', b);
      WrittenIsOnDisk(s, b);
    }
  }

  lemma {:induction false} VictimIsLast(order: seq<nat>, bufs: seq<Buf>, i: nat)
    requires forall j :: 0 <= j < |order| ==> order[j] < |bufs|
    requires Victim(order, bufs).Some?
    requires i < |order| && bufs[order[i]].refcnt == 0
    ensures exists j :: i <= j < |order| && order[j] == Victim(order, bufs).buf
  {
    var n := |order| - 1;
    if bufs[order[n]].refcnt != 0 {
      VictimIsLast(order[..n], bufs, i);
    }
  }

  /** Recycling is least recently used: of the buffers nobody uses, bget takes the one that
      was freed longest ago. */
  lemma RecyclesOldest(s: State, key: Key, b: nat)
    requires Inv(s) && Enabled(s, Get(key))
    requires b < |s.bufs| && s.bufs[b].refcnt == 0
    ensures var c := Chosen(s.order, s.bufs, key).buf;
            s.bufs[c].key != key ==> s.bufs[c].refcnt == 0 && s.freed[c] <= s.freed[b]
  {
    var c := Chosen(s.order, s.bufs, key).buf;
    if s.bufs[c].key != key {
      ChosenMiss(s.order, s.bufs, key, s.freed, s.clock);
      assert b in s.order;
      var i :| 0 <= i < |s.order| && s.order[i] == b;
      VictimIsLast(s.order, s.bufs, i);
    }
  }

  /** bget panics only when each buffer has a user. */
  lemma NoBuffers(s: State, key: Key)
    requires Inv(s) && Chosen(s.order, s.bufs, key).None?
    ensures forall b: nat :: b < |s.bufs| ==> b in s.waiting || b in s.leaving || b in s.locked || b in s.pinned
  {
    forall b: nat | b < |s.bufs| ensures b in s.waiting || b in s.leaving || b in s.locked || b in s.pinned {
      assert b in s.order;
      var i :| 0 <= i < |s.order| && s.order[i] == b;
      assert Refs(b, Passing(s), s.locked, s.pinned) > 0;
    }
  }

  // ---- log_write and the commit after it -----------------------------------------

  /** bget finds a buffer again that still holds its block. */
  lemma {:induction false} FoundAgain(order: seq<nat>, bufs: seq<Buf>, key: Key, b: nat, x: Buf)
    requires (forall i :: 0 <= i < |order| ==> order[i] < |bufs|) && b < |bufs| && b in order && x.key == key
    requires Lookup(order, bufs, key) == Some(b) || Lookup(order, bufs, key).None?
    ensures Lookup(order, bufs[b := x], key) == Some(b)
  {
    if order[0] != b {
      assert b in order[1..];
      FoundAgain(order[1..], bufs, key, b, x);
    }
  }

  lemma ChosenAgain(order: seq<nat>, bufs: seq<Buf>, key: Key, b: nat, x: Buf)
    requires (forall i :: 0 <= i < |order| ==> order[i] < |bufs|) && x.key == key
    requires Chosen(order, bufs, key) == Some(b)
    ensures b < |bufs| && Chosen(order, bufs[b := x], key) == Some(b)
  {
    FoundAgain(order, bufs, key, b, x);
  }

  lemma RefsCancel(n: nat)
    requires n + 2 < UINT_LIMIT
    ensures Inc(n) == n + 1 && Inc(n + 1) == n + 2 && Dec(n + 2) == n + 1 && Dec(n + 1) == n
  {
  }

  /** A block that goes through the log: bread, log_write's bpin, brelse; later install_trans's
      bread, bunpin, brelse (kernel/log.c:74-80, 222-230). With nothing in between both bgets
      find the same buffer, which keeps the block all the time, and afterwards the count is
      what it was; a buffer recycled for the block is unreferenced again. */
  method LogAndInstall(c: Bcache, key: Key) returns (b: Option)
    requires c.Valid() && forall i :: 0 <= i < c.buf.Length ==> c.buf[i].refcnt + 2 < UINT_LIMIT
    modifies c, c.next, c.prev, c.buf
    ensures c.Valid() && b == Chosen(old(c.order), old(c.buf[..]), key)
    ensures b.Some? ==>
              && b.buf < c.buf.Length && c.buf[b.buf].key == key
              && c.buf[b.buf].refcnt == if old(c.buf[..])[b.buf].key == key then old(c.buf[..])[b.buf].refcnt else 0
  {
    hide Links, Chosen, Front, Inc, Dec, Lookup;
    ghost var order, bufs := c.order, c.buf[..];
    b := c.BGet(key);
    if b.Some? {
      ghost var n := if bufs[b.buf].key == key then bufs[b.buf].refcnt else 0;
      RefsCancel(n);
      RefsCancel(0);
      c.BPin(b.buf);
      c.BRelse(b.buf);
      assert c.order == order && c.buf[..] == bufs[b.buf := c.buf[b.buf]];
      RingInRange(c);
      ChosenAgain(order, bufs, key, b.buf, c.buf[b.buf]);
      var again := c.BGet(key);
      c.BUnpin(again.buf);
      c.BRelse(again.buf);
    }
  }

  lemma RingInRange(c: Bcache)
    requires c.Valid()
    ensures forall i :: 0 <= i < |c.order| ==> c.order[i] < c.buf.Length
  {
  }

  // ---- recovery ------------------------------------------------------------

  /** Recovery runs install_trans without any log_write before it, so each block it installs
      is unpinned without a pin (kernel/log.c:74-80 reached from kernel/log.c:119). After
      bread, bunpin, brelse the count is one lower than before, modulo 2^32: it is 0 exactly
      when the buffer had one other reference, and a buffer recycled for the block is left
      with 2^32 - 1. */
  method RecoverBlock(c: Bcache, key: Key) returns (b: Option)
    requires c.Valid() && forall i :: 0 <= i < c.buf.Length ==> c.buf[i].refcnt < UINT_LIMIT
    modifies c, c.next, c.prev, c.buf
    ensures c.Valid() && b == Chosen(old(c.order), old(c.buf[..]), key)
    ensures b.Some? ==>
              && b.buf < c.buf.Length
              && c.buf[b.buf].refcnt ==
                (if old(c.buf[..])[b.buf].key == key then Dec(old(c.buf[..])[b.buf].refcnt) else UINT_LIMIT - 1)
              && (c.buf[b.buf].refcnt == 0 <==> old(c.buf[..])[b.buf].key == key && old(c.buf[..])[b.buf].refcnt == 1)
  {
    hide Links, Chosen, Front, Inc, Dec;
    b := c.BGet(key);
    if b.Some? {
      OneLess(old(c.buf[..])[b.buf].refcnt);
      c.BUnpin(b.buf);
      c.BRelse(b.buf);
    }
  }

  lemma OneLess(n: nat)
    requires n < UINT_LIMIT
    ensures Dec(Dec(Inc(n))) == Dec(n) && Dec(Dec(1)) == UINT_LIMIT - 1
    ensures Dec(n) == 0 <==> n == 1
  {
  }

  /** A state of the run below: as at boot, but for buffer 0 and who uses it. */
  ghost function With0(s: State, x: Buf, waiting: multiset<nat>, leaving: multiset<nat>, locked: set<nat>,
                       touched: set<nat>, written: set<nat>, view: map<Key, Block>): State
    requires |s.bufs| > 0
  {
    State(s.order, s.bufs[0 := x], waiting, leaving, locked, touched, written, {}, s.disk, view, s.freed, s.clock)
  }

  /** A miss takes buffer 0, the last in the ring, when it is unreferenced. */
  lemma MissTakes0(s: State, bufs: seq<Buf>, key: Key)
    requires Init(s) && |bufs| == |s.bufs| > 0 && bufs[0].refcnt == 0
    requires forall b: nat :: b < |bufs| ==> bufs[b].key != key
    ensures InRange(s) && Chosen(s.order, bufs, key) == Some(0)
  {
    assert s.order[|s.order| - 1] == 0;
  }

  lemma HitTakes0(s: State, bufs: seq<Buf>, key: Key)
    requires Init(s) && |bufs| == |s.bufs| > 0 && bufs[0].key == key
    requires forall b: nat :: 0 < b < |bufs| ==> bufs[b].key != key
    ensures InRange(s) && Chosen(s.order, bufs, key) == Some(0)
  {
    assert s.order[|s.order| - 1] == 0;
  }

  /** In these states, what a process may do with buffer 0. */
  lemma Get0(s: State, x: Buf, key: Key, m: multiset<nat>, l: set<nat>, t: set<nat>, view: map<Key, Block>)
    requires Init(s) && |s.bufs| > 0 && key.dev != 0 && key in s.disk && m == multiset{} && (l == {} || l == {0})
    requires x.key == key || x.refcnt == 0
    ensures Goes(With0(s, x, m, m, l, t, {}, view), Get(key), With0(s, Taken(x, key), multiset{0}, m, l, t, {}, view))
  {
    var bufs := s.bufs[0 := x];
    if x.key == key { HitTakes0(s, bufs, key); } else { MissTakes0(s, bufs, key); }
    hide Chosen;
  }

  lemma Lock0(s: State, x: Buf, m: multiset<nat>, w: set<nat>, view: map<Key, Block>)
    requires Init(s) && |s.bufs| > 0 && m == multiset{}
    ensures Goes(With0(s, x, multiset{0}, m, {}, {}, w, view), Lock(0), With0(s, x, m, m, {0}, {}, w, view))
  {
  }

  lemma Fill0(s: State, x: Buf, m: multiset<nat>)
    requires Init(s) && |s.bufs| > 0 && !x.valid && x.key in s.disk
    ensures Goes(With0(s, x, m, m, {0}, {}, {}, s.disk), Fill(0),
                 With0(s, Buf(x.key, true, x.refcnt, s.disk[x.key]), m, m, {0}, {}, {}, s.disk))
  {
  }

  lemma Write0(s: State, x: Buf, m: multiset<nat>)
    requires Init(s) && |s.bufs| > 0 && x.valid && x.key in s.disk && x.data == s.disk[x.key]
    ensures Goes(With0(s, x, m, m, {0}, {}, {}, s.disk), Write(0), With0(s, x, m, m, {0}, {}, {0}, s.disk))
  {
    assert s.disk[x.key := x.data] == s.disk;
  }

  lemma Unpin0(s: State, x: Buf, m: multiset<nat>)
    requires Init(s) && |s.bufs| > 0 && x.valid && x.key in s.disk
    ensures Goes(With0(s, x, m, m, {0}, {}, {0}, s.disk), RecoverUnpin(0),
                 With0(s, WithRef(x, Dec(x.refcnt)), m, m, {0}, {}, {0}, s.disk))
  {
  }

  lemma Unlock0(s: State, x: Buf, m: multiset<nat>)
    requires Init(s) && |s.bufs| > 0 && x.valid && x.key in s.disk && m == multiset{}
    ensures Goes(With0(s, x, m, m, {0}, {}, {0}, s.disk), Unlock(0), With0(s, x, m, multiset{0}, {}, {}, {}, s.disk))
  {
  }

  lemma Put0(s: State, x: Buf, m: multiset<nat>)
    requires Init(s) && |s.bufs| > 0 && m == multiset{} && Dec(x.refcnt) != 0
    ensures Goes(With0(s, x, m, multiset{0}, {}, {}, {}, s.disk), Put(0),
                 With0(s, WithRef(x, Dec(x.refcnt)), m, m, {}, {}, {}, s.disk))
  {
  }

  lemma Modify0(s: State, x: Buf, data: Block, m: multiset<nat>)
    requires Init(s) && |s.bufs| > 0 && x.valid && x.key in s.disk
    ensures Goes(With0(s, x, m, m, {0}, {}, {}, s.disk), Modify(0, data),
                 With0(s, Buf(x.key, true, x.refcnt, data), m, m, {0}, {0}, {}, s.disk[x.key := data]))
  {
  }

  /** The buffer after each step of the run below. */
  ghost function Phase(s: State, k1: Key, k2: Key, data: Block, i: nat): State
    requires |s.bufs| > 0 && k1 in s.disk && i <= 11
  {
    var d, z, view := s.bufs[0].data, s.disk[k1], s.disk[k1 := data];
    var m: multiset<nat>, m0: multiset<nat> := multiset{}, multiset{0};
    if i == 0 then s
    else if i == 1 then With0(s, Buf(k1, false, 1, d), m0, m, {}, {}, {}, s.disk)
    else if i == 2 then With0(s, Buf(k1, false, 1, d), m, m, {0}, {}, {}, s.disk)
    else if i == 3 then With0(s, Buf(k1, true, 1, z), m, m, {0}, {}, {}, s.disk)
    else if i == 4 then With0(s, Buf(k1, true, 1, z), m, m, {0}, {}, {0}, s.disk)
    else if i == 5 then With0(s, Buf(k1, true, 0, z), m, m, {0}, {}, {0}, s.disk)
    else if i == 6 then With0(s, Buf(k1, true, 0, z), m, m0, {}, {}, {}, s.disk)
    else if i == 7 then With0(s, Buf(k1, true, UINT_LIMIT - 1, z), m, m, {}, {}, {}, s.disk)
    else if i == 8 then With0(s, Buf(k1, true, 0, z), m0, m, {}, {}, {}, s.disk)
    else if i == 9 then With0(s, Buf(k1, true, 0, z), m, m, {0}, {}, {}, s.disk)
    else if i == 10 then With0(s, Buf(k1, true, 0, data), m, m, {0}, {0}, {}, view)
    else With0(s, Buf(k2, false, 1, data), m0, m, {0}, {0}, {}, view)
  }

  /** Recovery installs block k1 (the buffer of the log block, which comes and goes meanwhile,
      is not shown); later one process changes k1 and another reads k2. */
  ghost function Script(k1: Key, k2: Key, data: Block): seq<Step> {
    [Get(k1), Lock(0), Fill(0), Write(0), RecoverUnpin(0), Unlock(0), Put(0),
     Get(k1), Lock(0), Modify(0, data), Get(k2)]
  }

  lemma ScriptRuns(s: State, k1: Key, k2: Key, data: Block, i: nat)
    requires Init(s) && |s.bufs| > 0 && k1.dev != 0 && k2.dev != 0 && k1 != k2 && k1 in s.disk && k2 in s.disk && i < 11
    ensures Goes(Phase(s, k1, k2, data, i), Script(k1, k2, data)[i], Phase(s, k1, k2, data, i + 1))
  {
    hide Goes, With0, Init;
    var d, z, view := s.bufs[0].data, s.disk[k1], s.disk[k1 := data];
    var m: multiset<nat> := multiset{};
    BootState(s);
    if i == 0 { Get0(s, s.bufs[0], k1, m, {}, {}, s.disk); }
    else if i == 1 { Lock0(s, Buf(k1, false, 1, d), m, {}, s.disk); }
    else if i == 2 { Fill0(s, Buf(k1, false, 1, d), m); }
    else if i == 3 { Write0(s, Buf(k1, true, 1, z), m); }
    else if i == 4 { Unpin0(s, Buf(k1, true, 1, z), m); }
    else if i == 5 { Unlock0(s, Buf(k1, true, 0, z), m); }
    else if i == 6 { Put0(s, Buf(k1, true, 0, z), m); }
    else if i == 7 { Get0(s, Buf(k1, true, UINT_LIMIT - 1, z), k1, m, {}, {}, s.disk); }
    else if i == 8 { Lock0(s, Buf(k1, true, 0, z), m, {}, s.disk); }
    else if i == 9 { Modify0(s, Buf(k1, true, 0, z), data, m); }
    else { Get0(s, Buf(k1, true, 0, data), k2, m, {0}, {0}, view); }
  }

  lemma BootState(s: State)
    requires Init(s) && |s.bufs| > 0
    ensures s == With0(s, s.bufs[0], multiset{}, multiset{}, {}, {}, {}, s.disk)
    ensures forall b: nat :: b < |s.bufs| ==> s.bufs[b].key == Key(0, 0) && s.bufs[b].refcnt == 0
  {
    assert s.bufs[0 := s.bufs[0]] == s.bufs;
  }

  /** Why an empty header is needed. After recovery has installed block k1, the next bread of
      k1 turns its count from 2^32 - 1 to 0 while the buffer is in use, so a miss on another
      block takes the buffer away from the process that holds it. In a cache of any size, for
      any two blocks: the contents just stored in k1 are then in no buffer and not on the
      disk. */
  lemma RecoveryLosesUpdates(s: State, k1: Key, k2: Key, data: Block) returns (ss: seq<State>, ts: seq<Step>)
    requires Init(s) && |s.bufs| > 0 && k1.dev != 0 && k2.dev != 0 && k1 != k2 && k1 in s.disk && k2 in s.disk
    requires data != s.disk[k1]
    ensures Run(ss, ts) && |ts| == 11 && ss[0] == s && ts == Script(k1, k2, data)
    ensures Lost(ss[11], k1, data) && 0 in ss[11].locked
  {
    ts := Script(k1, k2, data);
    ss := seq(12, i requires 0 <= i < 12 => Phase(s, k1, k2, data, i));
    forall i: nat | i < 11 ensures Goes(ss[i], ts[i], ss[i + 1]) {
      ScriptRuns(s, k1, k2, data, i);
    }
    LostAtEnd(s, k1, k2, data);
    hide Phase, Lost, Goes, Init;
  }

  /** The last contents stored in block k are nowhere. */
  ghost predicate Lost(s: State, k: Key, data: Block) {
    k in s.view && s.view[k] == data && k in s.disk && s.disk[k] != data && !Cached(s.bufs, k)
  }

  lemma LostAtEnd(s: State, k1: Key, k2: Key, data: Block)
    requires Init(s) && |s.bufs| > 0 && k1.dev != 0 && k1 != k2 && k1 in s.disk && data != s.disk[k1]
    ensures var e := Phase(s, k1, k2, data, 11); Lost(e, k1, data) && 0 in e.locked
  {
  }
}
