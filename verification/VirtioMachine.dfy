/** All runs of disk requests against a device that completes the chains made available to
    it in any order (kernel/virtio_disk.c:168-269; section 2.6 of Virtual I/O Device version
    1.1). Each stretch of driver code under vdisk_lock is one step, except that the device
    may complete requests between two turns of the interrupt handler's loop. */
module VirtioMachine {
  import opened Virtio

  /** A request was made available, has been fetched by the device, is in the used ring, or
      has been reported to its process. hits counts the reports. */
  datatype Stage = Queued | Fetched | Finished | Notified

  datatype Request = Request(chain: seq<nat>, stage: Stage, hits: nat)

  datatype Option = None | Some(b: nat)

  type Requests = map<nat, Request>

  /** free, next, more: the descriptor table; owner: which request uses a descriptor. info: which
      request a chain head belongs to.
      avail and used: the rings, with the heads not yet fetched (queued) or not yet seen by
      the driver (unseen), and the counts of all heads ever entered (queues, uses). */
  datatype State = State(free: seq<bool>, owner: seq<Option>, next: seq<nat>, more: seq<bool>, info: seq<Option>,
                         reqs: Requests,
                         avail: seq<nat>, queued: seq<nat>, queues: nat,
                         used: seq<nat>, unseen: seq<nat>, uses: nat)

  datatype Step = Submit(b: nat) | Fetch(b: nat) | Complete(b: nat) | Interrupt(b: nat) | Finish(b: nat)

  /** The 16-bit ring index that the other side reads. */
  function Idx16(n: nat): nat { n % 65536 }

  function Head(r: Request): nat
    requires |r.chain| == 3
  {
    r.chain[0]
  }

  ghost predicate Sizes(s: State) {
    && |s.free| == |s.owner| == |s.next| == |s.more| == |s.info| == |s.avail| == |s.used| == NUM
    && |s.queued| <= s.queues && |s.unseen| <= s.uses
  }

  /** used_idx: where the driver looks next in the used ring. */
  ghost function UsedIdx(s: State): nat
    requires |s.unseen| <= s.uses
  {
    (s.uses - |s.unseen|) % NUM
  }

  /** What the interrupt handler's loop tests. */
  ghost predicate Pending(s: State)
    requires |s.unseen| <= s.uses
  {
    UsedIdx(s) % NUM != Idx16(s.uses) % NUM
  }

  ghost function Slot(ring: seq<nat>, i: nat): nat
    requires |ring| == NUM
  {
    ring[i % NUM]
  }

  /** disk.info says that head x belongs to request b. */
  ghost predicate Belongs(s: State, x: nat, b: nat)
    requires Sizes(s)
  {
    x < NUM && s.info[x] == Some(b)
  }

  ghost predicate Enabled(s: State, t: Step)
    requires Sizes(s)
  {
    match t
    case Submit(b) => b !in s.reqs && Three(s.free) != []
    case Fetch(b) => s.queued != [] && b in s.reqs && Belongs(s, Slot(s.avail, s.queues - |s.queued|), b)
    case Complete(b) => b in s.reqs && s.reqs[b].stage == Fetched && |s.reqs[b].chain| == 3
    case Interrupt(b) => Pending(s) && s.unseen != [] && b in s.reqs && Belongs(s, Slot(s.used, s.uses - |s.unseen|), b)
    case Finish(b) => b in s.reqs && s.reqs[b].stage == Notified && Chain(s.next, s.more, s.reqs[b].chain)
  }

  ghost function WithStage(reqs: Requests, b: nat, stage: Stage, hits: nat): Requests
    requires b in reqs
  {
    reqs[b := Request(reqs[b].chain, stage, hits)]
  }

  ghost function Given(owner: seq<Option>, c: seq<nat>, o: Option): (r: seq<Option>)
    requires |owner| == NUM
    ensures |r| == NUM && forall i :: 0 <= i < NUM ==> r[i] == if i in c then o else owner[i]
  {
    seq(NUM, i requires 0 <= i < NUM => if i in c then o else owner[i])
  }

  ghost function Next(s: State, t: Step): State
    requires Sizes(s) && Enabled(s, t)
  {
    match t
    case Submit(b) =>
      var c := Three(s.free);
      State(Marked(s.free, c, false), Given(s.owner, c, Some(b)), Next3(s.next, c), More3(s.more, c),
            s.info[c[0] := Some(b)], s.reqs[b := Request(c, Queued, 0)],
            s.avail[Idx16(s.queues) % NUM := c[0]], s.queued + [c[0]], s.queues + 1, s.used, s.unseen, s.uses)
    case Fetch(b) =>
      s.(reqs := WithStage(s.reqs, b, Fetched, s.reqs[b].hits), queued := s.queued[1..])
    case Complete(b) =>
      s.(reqs := WithStage(s.reqs, b, Finished, s.reqs[b].hits),
         used := s.used[s.uses % NUM := Head(s.reqs[b])], unseen := s.unseen + [Head(s.reqs[b])], uses := s.uses + 1)
    case Interrupt(b) =>
      s.(reqs := WithStage(s.reqs, b, Notified, s.reqs[b].hits + 1), unseen := s.unseen[1..])
    case Finish(b) =>
      s.(free := Marked(s.free, s.reqs[b].chain, true), owner := Given(s.owner, s.reqs[b].chain, None),
         info := s.info[Head(s.reqs[b]) := None], reqs := s.reqs - {b})
  }

  // ---- rings ----------------------------------------------------------------------

  /** Of n heads ever entered, the last |q| are still in the ring, in order. */
  ghost predicate RingHolds(ring: seq<nat>, n: nat, q: seq<nat>) {
    |ring| == NUM && |q| <= n && |q| <= NUM && forall k :: 0 <= k < |q| ==> Slot(ring, n - |q| + k) == q[k]
  }

  lemma RingPush(ring: seq<nat>, n: nat, q: seq<nat>, x: nat)
    requires RingHolds(ring, n, q) && |q| < NUM
    ensures RingHolds(ring[n % NUM := x], n + 1, q + [x])
  {
    forall k | 0 <= k < |q| + 1 ensures Slot(ring[n % NUM := x], n + 1 - (|q| + 1) + k) == (q + [x])[k] {
      if k < |q| {
        assert Slot(ring, n - |q| + k) == q[k];
        SlotsApart(n - |q| + k, n);
      }
    }
  }

  lemma SlotsApart(a: nat, b: nat)
    requires a < b < a + NUM
    ensures a % NUM != b % NUM
  {
  }

  lemma RingPop(ring: seq<nat>, n: nat, q: seq<nat>)
    requires RingHolds(ring, n, q) && q != []
    ensures Slot(ring, n - |q|) == q[0] && RingHolds(ring, n, q[1..])
  {
    assert Slot(ring, n - |q| + 0) == q[0];
    forall k | 0 <= k < |q| - 1 ensures Slot(ring, n - (|q| - 1) + k) == q[1..][k] {
      assert Slot(ring, n - |q| + (k + 1)) == q[k + 1];
    }
  }

  // ---- the invariant -----------------------------------------------------------------

  /** The heads in q are the heads of the requests in this stage, each once. */
  ghost predicate Lists(q: seq<nat>, reqs: Requests, stage: Stage) {
    && (forall i, j :: 0 <= i < j < |q| ==> q[i] != q[j])
    && (forall x :: x in q ==> exists b :: IsHead(reqs, b, x, stage))
    && (forall b, x :: IsHead(reqs, b, x, stage) ==> x in q)
  }

  ghost predicate IsHead(reqs: Requests, b: nat, x: nat, stage: Stage) {
    b in reqs && |reqs[b].chain| == 3 && reqs[b].chain[0] == x && reqs[b].stage == stage
  }

  ghost predicate Owned(owner: seq<Option>, c: seq<nat>, b: nat) {
    |owner| == NUM && forall k :: 0 <= k < |c| ==> c[k] < NUM && owner[c[k]] == Some(b)
  }

  /** Each descriptor is free or in exactly one request's chain of three. */
  ghost predicate Chains(free: seq<bool>, owner: seq<Option>, next: seq<nat>, more: seq<bool>, reqs: Requests) {
    && |free| == |owner| == NUM
    && (forall i :: 0 <= i < NUM ==> free[i] == owner[i].None?)
    && (forall i :: 0 <= i < NUM && owner[i].Some? ==> owner[i].b in reqs && i in reqs[owner[i].b].chain)
    && (forall b :: b in reqs ==> Chain(next, more, reqs[b].chain) && Owned(owner, reqs[b].chain, b))
  }

  ghost predicate Known(info: seq<Option>, reqs: Requests) {
    |info| == NUM && forall b :: b in reqs ==>
        |reqs[b].chain| == 3 && reqs[b].chain[0] < NUM && info[reqs[b].chain[0]] == Some(b)
  }

  /** Reported once when notified, and not before. */
  ghost predicate HitOnce(reqs: Requests) {
    forall b :: b in reqs ==> reqs[b].hits == if reqs[b].stage == Notified then 1 else 0
  }

  ghost predicate Inv(s: State) {
    && Sizes(s)
    && Chains(s.free, s.owner, s.next, s.more, s.reqs)
    && Known(s.info, s.reqs)
    && Lists(s.queued, s.reqs, Queued) && RingHolds(s.avail, s.queues, s.queued)
    && Lists(s.unseen, s.reqs, Finished) && RingHolds(s.used, s.uses, s.unseen)
    && HitOnce(s.reqs)
  }

  ghost predicate Init(s: State) {
    && Sizes(s) && (forall i :: 0 <= i < NUM ==> s.free[i] && s.owner[i] == None) && s.reqs == map[]
    && s.queued == [] && s.unseen == [] && s.queues == s.uses == 0
  }

  lemma InitInv(s: State)
    requires Init(s)
    ensures Inv(s)
  {
  }

  // ---- at most two requests ---------------------------------------------------------

  lemma Below(n: nat, s: set<nat>)
    requires forall i :: i in s ==> i < n
    ensures |s| <= n
  {
    if n > 0 {
      var t := s - {n - 1};
      Below(n - 1, t);
      assert |s| <= |t| + 1 by { if n - 1 in s { assert s == t + {n - 1}; } else { assert s == t; } }
    }
  }

  /** Three chains with different owners would need nine descriptors. */
  lemma NineDescriptors(owner: seq<Option>, x: seq<nat>, y: seq<nat>, z: seq<nat>, a: nat, b: nat, c: nat)
    requires Owned(owner, x, a) && Owned(owner, y, b) && Owned(owner, z, c) && |x| == |y| == |z| == 3
    requires forall i, j :: 0 <= i < j < 3 ==> x[i] != x[j] && y[i] != y[j] && z[i] != z[j]
    ensures a == b || b == c || a == c
  {
    if a != b && b != c && a != c {
      var s := {x[0], x[1], x[2]};
      var t := {y[0], y[1], y[2]};
      var u := {z[0], z[1], z[2]};
      assert s * t == {} && (s + t) * u == {};
      assert |s + t + u| == 9;
      Below(NUM, s + t + u);
      assert false;
    }
  }

  /** At most two requests are in progress. */
  lemma AtMostTwo(free: seq<bool>, owner: seq<Option>, next: seq<nat>, more: seq<bool>, reqs: Requests, a: nat, b: nat,
                  c: nat)
    requires Chains(free, owner, next, more, reqs) && a in reqs && b in reqs && c in reqs
    ensures a == b || b == c || a == c
  {
    NineDescriptors(owner, reqs[a].chain, reqs[b].chain, reqs[c].chain, a, b, c);
  }

  lemma ShortQueue(free: seq<bool>, owner: seq<Option>, next: seq<nat>, more: seq<bool>, info: seq<Option>,
                   reqs: Requests, q: seq<nat>, stage: Stage)
    requires Chains(free, owner, next, more, reqs) && Known(info, reqs) && Lists(q, reqs, stage)
    ensures |q| <= 2
  {
    if |q| > 2 {
      assert q[0] in q && q[1] in q && q[2] in q;
      var a :| IsHead(reqs, a, q[0], stage);
      var b :| IsHead(reqs, b, q[1], stage);
      var c :| IsHead(reqs, c, q[2], stage);
      AtMostTwo(free, owner, next, more, reqs, a, b, c);
      assert false;
    }
  }

  /** Comparing ring indices modulo NUM never hides a completion, and never invents one. */
  lemma NothingHidden(s: State)
    requires Inv(s)
    ensures |s.unseen| <= 2 && |s.queued| <= 2
    ensures Pending(s) <==> s.unseen != []
  {
    ShortQueue(s.free, s.owner, s.next, s.more, s.info, s.reqs, s.unseen, Finished);
    ShortQueue(s.free, s.owner, s.next, s.more, s.info, s.reqs, s.queued, Queued);
    assert Idx16(s.uses) % NUM == s.uses % NUM;
  }

  /** The next head in a queue: where it is in the ring, and whose it is. */
  lemma FirstListed(s: State, ring: seq<nat>, n: nat, q: seq<nat>, stage: Stage) returns (b: nat)
    requires Sizes(s) && Known(s.info, s.reqs) && Lists(q, s.reqs, stage) && RingHolds(ring, n, q) && q != []
    ensures b in s.reqs && s.reqs[b].stage == stage && IsHead(s.reqs, b, q[0], stage)
    ensures Slot(ring, n - |q|) == q[0] && Belongs(s, q[0], b)
  {
    RingPop(ring, n, q);
    assert q[0] in q;
    b :| IsHead(s.reqs, b, q[0], stage);
  }

  /** What the interrupt handler finds is a finished request that has not been reported. */
  lemma InterruptHitsFinished(s: State) returns (b: nat)
    requires Inv(s) && s.unseen != []
    ensures Enabled(s, Interrupt(b)) && s.reqs[b].stage == Finished && s.reqs[b].hits == 0
  {
    NothingHidden(s);
    b := FirstListed(s, s.used, s.uses, s.unseen, Finished);
  }

  /** What the device finds next in the available ring is a request it has not fetched. */
  lemma FetchHitsQueued(s: State) returns (b: nat)
    requires Inv(s) && s.queued != []
    ensures Enabled(s, Fetch(b)) && s.reqs[b].stage == Queued
  {
    b := FirstListed(s, s.avail, s.queues, s.queued, Queued);
  }

  lemma HeadOf(s: State, x: nat, b: nat, c: nat, stage: Stage)
    requires Sizes(s) && Known(s.info, s.reqs) && Belongs(s, x, b) && IsHead(s.reqs, c, x, stage)
    ensures b == c
  {
  }

  // ---- the steps ------------------------------------------------------------------------

  lemma ListsPush(q: seq<nat>, reqs: Requests, reqs': Requests, stage: Stage, b: nat, x: nat)
    requires Lists(q, reqs, stage) && IsHead(reqs', b, x, stage) && x !in q
    requires forall c, y, st :: c != b ==> IsHead(reqs', c, y, st) == IsHead(reqs, c, y, st)
    requires forall y :: !IsHead(reqs, b, y, stage)
    ensures Lists(q + [x], reqs', stage)
  {
    forall y | y in q + [x] ensures exists c :: IsHead(reqs', c, y, stage) {
      if y in q {
        var c :| IsHead(reqs, c, y, stage);
        assert IsHead(reqs', c, y, stage);
      }
    }
  }

  lemma ListsPop(q: seq<nat>, reqs: Requests, reqs': Requests, stage: Stage, b: nat)
    requires Lists(q, reqs, stage) && q != [] && IsHead(reqs, b, q[0], stage)
    requires forall c, y, st :: c != b ==> IsHead(reqs', c, y, st) == IsHead(reqs, c, y, st)
    requires forall y :: !IsHead(reqs', b, y, stage)
    requires forall c :: IsHead(reqs, c, q[0], stage) ==> c == b
    ensures Lists(q[1..], reqs', stage)
  {
    forall y | y in q[1..] ensures exists c :: IsHead(reqs', c, y, stage) {
      assert y in q && y != q[0];
      var c :| IsHead(reqs, c, y, stage);
      assert c != b;
      assert IsHead(reqs', c, y, stage);
    }
    forall c, y | IsHead(reqs', c, y, stage) ensures y in q[1..] {
      assert IsHead(reqs, c, y, stage);
      assert y in q && y != q[0];
    }
  }

  lemma ListsSame(q: seq<nat>, reqs: Requests, reqs': Requests, stage: Stage, b: nat)
    requires Lists(q, reqs, stage)
    requires forall c, y, st :: c != b ==> IsHead(reqs', c, y, st) == IsHead(reqs, c, y, st)
    requires forall y :: !IsHead(reqs, b, y, stage) && !IsHead(reqs', b, y, stage)
    ensures Lists(q, reqs', stage)
  {
    forall y | y in q ensures exists c :: IsHead(reqs', c, y, stage) {
      var c :| IsHead(reqs, c, y, stage);
      assert IsHead(reqs', c, y, stage);
    }
  }

  /** Only the stage of one request changes. */
  lemma StageChange(s: State, b: nat, stage: Stage, hits: nat)
    requires Chains(s.free, s.owner, s.next, s.more, s.reqs) && Known(s.info, s.reqs) && HitOnce(s.reqs) && b in s.reqs
    requires hits == if stage == Notified then 1 else 0
    ensures var reqs' := WithStage(s.reqs, b, stage, hits);
            && Chains(s.free, s.owner, s.next, s.more, reqs') && Known(s.info, reqs') && HitOnce(reqs')
            && (forall c, y, st :: c != b ==> IsHead(reqs', c, y, st) == IsHead(s.reqs, c, y, st))
  {
    hide Chain, Owned;
  }

  /** The first listed request moves on to another stage. */
  lemma Advance(s: State, q: seq<nat>, stage: Stage, b: nat, stage': Stage, hits: nat, q2: seq<nat>, stage2: Stage)
    requires Sizes(s) && Known(s.info, s.reqs) && HitOnce(s.reqs) && Lists(q, s.reqs, stage) &&
             Lists(q2, s.reqs, stage2)
    requires stage != Notified && q != [] && b in s.reqs && Belongs(s, q[0], b) && stage2 != stage &&
             stage2 != stage' && stage != stage'
    requires forall c, y, st :: c != b ==>
               IsHead(WithStage(s.reqs, b, stage', hits), c, y, st) == IsHead(s.reqs, c, y, st)
    ensures s.reqs[b].stage == stage && s.reqs[b].hits == 0
    ensures Lists(q[1..], WithStage(s.reqs, b, stage', hits), stage) &&
            Lists(q2, WithStage(s.reqs, b, stage', hits), stage2)
  {
    var reqs' := WithStage(s.reqs, b, stage', hits);
    assert q[0] in q;
    forall d | IsHead(s.reqs, d, q[0], stage) ensures d == b { HeadOf(s, q[0], b, d, stage); }
    var d :| IsHead(s.reqs, d, q[0], stage);
    hide Lists, Known;
    ListsPop(q, s.reqs, reqs', stage, b);
    ListsSame(q2, s.reqs, reqs', stage2, b);
  }

  lemma FetchInv(s: State, b: nat)
    requires Inv(s) && Enabled(s, Fetch(b))
    ensures Inv(Next(s, Fetch(b)))
  {
    hide Pending, Idx16, UsedIdx, RingHolds, Lists, Slot, Chains, Known, HitOnce;
    RingPop(s.avail, s.queues, s.queued);
    var reqs' := WithStage(s.reqs, b, Fetched, s.reqs[b].hits);
    assert forall c, y, st :: c != b ==> IsHead(reqs', c, y, st) == IsHead(s.reqs, c, y, st);
    Advance(s, s.queued, Queued, b, Fetched, s.reqs[b].hits, s.unseen, Finished);
    StageChange(s, b, Fetched, s.reqs[b].hits);
  }

  lemma InterruptInv(s: State, b: nat)
    requires Inv(s) && Enabled(s, Interrupt(b))
    ensures Inv(Next(s, Interrupt(b)))
  {
    hide Pending, Idx16, UsedIdx, RingHolds, Lists, Slot, Chains, Known, HitOnce;
    RingPop(s.used, s.uses, s.unseen);
    var reqs' := WithStage(s.reqs, b, Notified, s.reqs[b].hits + 1);
    assert forall c, y, st :: c != b ==> IsHead(reqs', c, y, st) == IsHead(s.reqs, c, y, st);
    Advance(s, s.unseen, Finished, b, Notified, s.reqs[b].hits + 1, s.queued, Queued);
    StageChange(s, b, Notified, s.reqs[b].hits + 1);
  }

  lemma NotListed(s: State, b: nat, q: seq<nat>, stage: Stage)
    requires Sizes(s) && Known(s.info, s.reqs) && Lists(q, s.reqs, stage) && b in s.reqs && s.reqs[b].stage != stage
    ensures |s.reqs[b].chain| == 3 && Head(s.reqs[b]) !in q
  {
    var x := s.reqs[b].chain[0];
    if x in q {
      var c :| IsHead(s.reqs, c, x, stage);
      HeadOf(s, x, b, c, stage);
      assert false;
    }
  }

  lemma CompleteInv(s: State, b: nat)
    requires Inv(s) && Enabled(s, Complete(b))
    ensures Inv(Next(s, Complete(b)))
  {
    hide Pending, Idx16, UsedIdx, RingHolds, Lists, Slot, Chains, Known, HitOnce;
    NothingHidden(s);
    NotListed(s, b, s.unseen, Finished);
    NotYetHit(s.reqs, b);
    var x := Head(s.reqs[b]);
    RingPush(s.used, s.uses, s.unseen, x);
    StageChange(s, b, Finished, s.reqs[b].hits);
    var reqs' := WithStage(s.reqs, b, Finished, s.reqs[b].hits);
    ListsPush(s.unseen, s.reqs, reqs', Finished, b, x);
    ListsSame(s.queued, s.reqs, reqs', Queued, b);
  }

  lemma NotYetHit(reqs: Requests, b: nat)
    requires HitOnce(reqs) && b in reqs && reqs[b].stage != Notified
    ensures reqs[b].hits == 0
  {
  }

  ghost function Next3(next: seq<nat>, c: seq<nat>): seq<nat>
    requires |next| == NUM && |c| == 3 && c[0] < c[1] < c[2] < NUM
  {
    next[c[0] := c[1]][c[1] := c[2]][c[2] := 0]
  }

  ghost function More3(more: seq<bool>, c: seq<nat>): seq<bool>
    requires |more| == NUM && |c| == 3 && c[0] < c[1] < c[2] < NUM
  {
    more[c[0] := true][c[1] := true][c[2] := false]
  }

  lemma OtherChain(next: seq<nat>, more: seq<bool>, c: seq<nat>, d: seq<nat>)
    requires |next| == |more| == NUM && |c| == 3 && c[0] < c[1] < c[2] < NUM && Chain(next, more, d)
    requires forall i :: i in c ==> i !in d
    ensures Chain(Next3(next, c), More3(more, c), d)
  {
    assert d[0] in d && d[1] in d && d[2] in d && c[0] in c && c[1] in c && c[2] in c;
  }

  /** A new chain of free descriptors is disjoint from the others. */
  lemma SubmitChains(free: seq<bool>, owner: seq<Option>, next: seq<nat>, more: seq<bool>, reqs: Requests, b: nat,
                     c: seq<nat>)
    requires Chains(free, owner, next, more, reqs) && |next| == |more| == NUM && b !in reqs
    requires |c| == 3 && c[0] < c[1] < c[2] < NUM && free[c[0]] && free[c[1]] && free[c[2]]
    ensures Chains(Marked(free, c, false), Given(owner, c, Some(b)), Next3(next, c), More3(more, c),
                   reqs[b := Request(c, Queued, 0)])
  {
    var owner' := Given(owner, c, Some(b));
    NewChain(owner, next, more, b, c);
    assert forall i :: i in c ==> i < NUM && owner[i] == None;
    forall d | d in reqs ensures Owned(owner', reqs[d].chain, d) &&
      Chain(Next3(next, c), More3(more, c), reqs[d].chain) {
      OwnedStays(owner, owner', c, reqs[d].chain, d, Some(b));
      OtherChain(next, more, c, reqs[d].chain);
    }
    hide Chain, Owned, Next3, More3;
    forall i | 0 <= i < NUM && owner'[i].Some?
      ensures owner'[i].b in reqs[b := Request(c, Queued, 0)] &&
              i in reqs[b := Request(c, Queued, 0)][owner'[i].b].chain
    {
      if i !in c { assert owner[i] == owner'[i]; }
    }
  }

  lemma NewChain(owner: seq<Option>, next: seq<nat>, more: seq<bool>, b: nat, c: seq<nat>)
    requires |owner| == |next| == |more| == NUM && |c| == 3 && c[0] < c[1] < c[2] < NUM
    ensures Owned(Given(owner, c, Some(b)), c, b) && Chain(Next3(next, c), More3(more, c), c)
  {
  }

  /** Descriptors that change hands leave the other chains alone. */
  lemma OwnedStays(owner: seq<Option>, owner': seq<Option>, c: seq<nat>, d: seq<nat>, a: nat, o: Option)
    requires |owner| == NUM && Owned(owner, d, a) && owner' == Given(owner, c, o)
    requires forall i :: i in c ==> i < NUM && owner[i] != Some(a)
    ensures Owned(owner', d, a) && forall i :: i in c ==> i !in d
  {
  }

  lemma SubmitKnown(s: State, b: nat, c: seq<nat>)
    requires Chains(s.free, s.owner, s.next, s.more, s.reqs) && Known(s.info, s.reqs) && HitOnce(s.reqs) && b !in s.reqs
    requires |c| == 3 && c[0] < NUM && s.free[c[0]]
    ensures Known(s.info[c[0] := Some(b)], s.reqs[b := Request(c, Queued, 0)]) &&
            HitOnce(s.reqs[b := Request(c, Queued, 0)])
    ensures forall d, y, st :: d != b ==>
              IsHead(s.reqs[b := Request(c, Queued, 0)], d, y, st) == IsHead(s.reqs, d, y, st)
  {
    forall d | d in s.reqs ensures s.reqs[d].chain[0] != c[0] {
      assert Owned(s.owner, s.reqs[d].chain, d);
    }
  }

  lemma FreeNotListed(s: State, q: seq<nat>, stage: Stage, x: nat)
    requires Chains(s.free, s.owner, s.next, s.more, s.reqs) && Lists(q, s.reqs, stage) && x < NUM && s.free[x]
    ensures x !in q
  {
  }

  lemma SubmitInv(s: State, b: nat)
    requires Inv(s) && Enabled(s, Submit(b))
    ensures Inv(Next(s, Submit(b)))
  {
    hide Pending, UsedIdx, RingHolds, Lists, Slot, Chains, Known, HitOnce, Chain, Marked, Given, Three;
    var c := Three(s.free);
    NothingHidden(s);
    FreeSize(s);
    SubmitChains(s.free, s.owner, s.next, s.more, s.reqs, b, c);
    SubmitKnown(s, b, c);
    FreeNotListed(s, s.queued, Queued, c[0]);
    RingPush(s.avail, s.queues, s.queued, c[0]);
    var reqs' := s.reqs[b := Request(c, Queued, 0)];
    ListsPush(s.queued, s.reqs, reqs', Queued, b, c[0]);
    ListsSame(s.unseen, s.reqs, reqs', Finished, b);
    assert Idx16(s.queues) % NUM == s.queues % NUM;
  }

  lemma FreeSize(s: State)
    requires Chains(s.free, s.owner, s.next, s.more, s.reqs)
    ensures |s.free| == |s.owner| == NUM
  {
  }

  lemma FinishChains(free: seq<bool>, owner: seq<Option>, next: seq<nat>, more: seq<bool>, reqs: Requests, b: nat)
    requires Chains(free, owner, next, more, reqs) && b in reqs
    ensures InUse(free, reqs[b].chain)
    ensures Chains(Marked(free, reqs[b].chain, true), Given(owner, reqs[b].chain, None), next, more, reqs - {b})
  {
    var c := reqs[b].chain;
    forall k | 0 <= k < |c| ensures c[k] < NUM && !free[c[k]] {
      assert Owned(owner, c, b);
    }
    var owner' := Given(owner, c, None);
    forall d | d in reqs && d != b ensures Owned(owner', reqs[d].chain, d) {
      OwnedStays(owner, owner', c, reqs[d].chain, d, None);
    }
    forall i | 0 <= i < NUM && owner'[i].Some? ensures owner'[i].b in reqs - {b} && i in reqs[owner'[i].b].chain {
      assert owner[i] == owner'[i];
      assert i in reqs[owner[i].b].chain;
    }
    hide Chain, Owned;
  }

  lemma FinishKnown(s: State, b: nat)
    requires Chains(s.free, s.owner, s.next, s.more, s.reqs) && Known(s.info, s.reqs) && HitOnce(s.reqs) && b in s.reqs
    ensures |s.reqs[b].chain| == 3 && s.reqs[b].chain[0] < NUM
    ensures Known(s.info[Head(s.reqs[b]) := None], s.reqs - {b}) && HitOnce(s.reqs - {b})
    ensures forall d, y, st :: d != b ==> IsHead(s.reqs - {b}, d, y, st) == IsHead(s.reqs, d, y, st)
  {
  }

  lemma FinishInv(s: State, b: nat)
    requires Inv(s) && Enabled(s, Finish(b))
    ensures Inv(Next(s, Finish(b)))
  {
    hide Pending, UsedIdx, RingHolds, Lists, Slot, Chains, Known, HitOnce, Marked, Given;
    FinishChains(s.free, s.owner, s.next, s.more, s.reqs, b);
    FinishKnown(s, b);
    ListsSame(s.queued, s.reqs, s.reqs - {b}, Queued, b);
    ListsSame(s.unseen, s.reqs, s.reqs - {b}, Finished, b);
  }

  /** Every step keeps the invariant. */
  lemma StepInv(s: State, t: Step)
    requires Inv(s) && Enabled(s, t)
    ensures Inv(Next(s, t))
  {
    match t
    case Submit(b) => SubmitInv(s, b);
    case Fetch(b) => FetchInv(s, b);
    case Complete(b) => CompleteInv(s, b);
    case Interrupt(b) => InterruptInv(s, b);
    case Finish(b) => FinishInv(s, b);
  }

  // ---- runs --------------------------------------------------------------------------------

  ghost predicate Run(ss: seq<State>, ts: seq<Step>) {
    && |ss| == |ts| + 1 && Init(ss[0])
    && forall i :: 0 <= i < |ts| ==> Sizes(ss[i]) && Enabled(ss[i], ts[i]) && ss[i + 1] == Next(ss[i], ts[i])
  }

  lemma {:induction false} RunInv(ss: seq<State>, ts: seq<Step>, n: nat)
    requires Run(ss, ts) && n < |ss|
    ensures Inv(ss[n])
  {
    if n == 0 {
      InitInv(ss[0]);
    } else {
      RunInv(ss, ts, n - 1);
      hide Inv, Next, Enabled;
      StepInv(ss[n - 1], ts[n - 1]);
    }
  }

  /** In every run a request that is over was reported to its process exactly once, and its
      three descriptors are in use, so that free_chain reaches neither panic. */
  lemma FinishedOnce(ss: seq<State>, ts: seq<Step>, n: nat)
    requires Run(ss, ts) && n < |ts| && ts[n].Finish?
    ensures ss[n].reqs[ts[n].b].hits == 1
    ensures Chain(ss[n].next, ss[n].more, ss[n].reqs[ts[n].b].chain) && InUse(ss[n].free, ss[n].reqs[ts[n].b].chain)
  {
    RunInv(ss, ts, n);
    var s := ss[n];
    FinishChains(s.free, s.owner, s.next, s.more, s.reqs, ts[n].b);
  }
}
