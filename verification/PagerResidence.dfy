/** Which pages come into the cache: what an access brings in, and what never gets in. */
module PagerResidence {
  import opened Base
  import opened PagerModel
  import opened PagerSteps
  import opened PagerRuns

  /** The access follows the last faulted page; after none, page 0 does, by 32-bit wrap-around. */
  predicate Sequential(s: Pager, p: nat) {
    p == (s.lastPage + 1) % TWO_32
  }

  /** In a new context the frames are handed out in ascending order, and only page 0 counts as sequential. */
  lemma FirstAccess(numPages: nat, numVirtual: nat, socket: bool, memory: seq<Page>, server: seq<Page>, p: nat, k: nat)
    requires 1 <= numPages <= UINT32_MAX && numVirtual <= UINT32_MAX
    requires |memory| == numPages && |server| == numVirtual && p < numVirtual && k < numPages
    ensures var s := Create(numPages, numVirtual, socket, memory, server);
            && (Sequential(s, p) <==> p == 0)
            && s.prefetchCount == 4
            && Popped(s.free, numPages)[k] == k
  {
  }

  /** A miss takes the frame on top of the stack; if its fetch fails the stack is as it was. */
  lemma TopFrameFirst(s: Pager, p: nat, write: bool, net: Net)
    requires Inv(s, {}) && p < |s.pages| && !s.pages[p].valid && s.free != []
    ensures var (t, r) := AccessSlow(s, p, write, net);
            && (r.Some? ==> r.value == s.free[|s.free| - 1])
            && (r.None? ==> t.free == s.free)
  {
    ObtainKeeps(s, net.put);
    ObtainLeavesInvalid(s, p, net.put);
    assert s.free == s.free[..|s.free| - 1] + [s.free[|s.free| - 1]];
  }

  function Reversed(t: seq<nat>): seq<nat> {
    if t == [] then [] else Reversed(t[1..]) + [t[0]]
  }

  /** Frames come off the stack in the reverse of the order they lie in. */
  lemma {:induction false} PoppedReversed(free: seq<nat>, k: nat)
    requires k <= |free|
    ensures Popped(free, k) == Reversed(free[|free| - k..])
  {
    if k == 0 {
    } else {
      PoppedReversed(free, k - 1);
      var top := free[|free| - k..];
      assert top[1..] == free[|free| - (k - 1)..] && top[0] == free[|free| - k];
      assert Popped(free, k) == Popped(free, k - 1) + [free[|free| - k]];
    }
  }

  /**
   A failed batch changes nothing but the stack: the frames it took, one for each page
   picked, go back in the order they came off, so that the top of the stack is reversed.
   */
  lemma FailedBatchReverses(s: Pager, start: nat, count: nat)
    requires Inv(s, {})
    ensures var k := |Picks(s, start, 0, count, Room(s))|;
            && k <= |s.free|
            && Prefetch(s, start, count, false) ==
               s.(free := s.free[..|s.free| - k] + Reversed(s.free[|s.free| - k..]))
  {
    PrefetchUnfold(s, start, count, false);
    PoppedReversed(s.free, |Picks(s, start, 0, count, Room(s))|);
    assert s.free[..|s.free|] + [] == s.free;
  }

  /** A successful one fetches as many. */
  lemma PickedFetches(s: Pager, start: nat, count: nat)
    requires Inv(s, {})
    ensures Prefetch(s, start, count, true).fetches == s.fetches + |Picks(s, start, 0, count, Room(s))|
  {
    PrefetchUnfold(s, start, count, true);
    var picks := Picks(s, start, 0, count, Room(s));
    InstallAllEffects(s.(free := s.free[..|s.free| - |picks|]), picks, Popped(s.free, |picks|), 0);
  }

  /** The frames left for the prefetch behind a miss: it takes one, and an eviction leaves none. */
  function RoomBehind(s: Pager): nat {
    if |s.free| <= 1 then 0 else if |s.free| - 1 < PREFETCH_MAX then |s.free| - 1 else PREFETCH_MAX
  }

  /** Page q is fetched behind a miss on p: in the window, fetched before, and with room left for it. */
  predicate Follows(s: Pager, p: nat, batchOk: bool, q: nat)
    requires q < |s.pages|
  {
    && Sequential(s, p) && batchOk && p < q <= p + s.prefetchCount
    && s.pages[q].location == Remote && WantedBefore(s, p + 1, q) < RoomBehind(s)
  }

  /**
   A miss that succeeds brings in its page and, behind it, exactly this: when it is
   sequential and the batch succeeds, the absent pages of its window that were fetched
   before, in order, until the free frames or the places in a batch are used up.
   */
  lemma MissBringsIn(s: Pager, p: nat, write: bool, net: Net, q: nat)
    requires Inv(s, {}) && p < |s.pages| && !s.pages[p].valid && q < |s.pages| && q != p && !s.pages[q].valid
    requires AccessSlow(s, p, write, net).1.Some?
    ensures var t := AccessSlow(s, p, write, net).0;
            && |t.pages| == |s.pages| && t.pages[p].valid
            && (t.pages[q].valid <==> Follows(s, p, net.batchOk, q))
  {
    AccessSlowKeeps(s, p, write, net);
    FilledKeeps(s, p, write, net);
    FilledFollows(s, p, write, net, q);
    AfterFillBringsIn(Filled(s, p, write, net), p, net.batchOk, q);
  }

  /** The pages still wanted, and the room for them, are known before the miss. */
  lemma FilledFollows(s: Pager, p: nat, write: bool, net: Net, q: nat)
    requires Inv(s, {}) && p < |s.pages| && !s.pages[p].valid && q < |s.pages| && q != p && !s.pages[q].valid
    requires AccessSlow(s, p, write, net).1.Some?
    ensures Obtain(s, net.put).1.Some?
    ensures var u := Filled(s, p, write, net);
            && Inv(u, {}) && |u.pages| == |s.pages| && !u.pages[q].valid
            && (FollowsFilled(u, p, net.batchOk, q) <==> Follows(s, p, net.batchOk, q))
  {
    FilledKeeps(s, p, write, net);
    FilledOthers(s, p, write, net);
    ObtainFree(s, net.put);
    ObtainLeavesInvalid(s, q, net.put);
    if p < q && s.free != [] { SameWanted(s, Filled(s, p, write, net), p + 1, q); }
  }

  predicate FollowsFilled(u: Pager, p: nat, batchOk: bool, q: nat)
    requires q < |u.pages|
  {
    && Sequential(u, p) && batchOk && p < q <= p + u.prefetchCount
    && u.pages[q].location == Remote && WantedBefore(u, p + 1, q) < Room(u)
  }

  /** A miss up to the prefetch behind it. */
  ghost function Filled(s: Pager, p: nat, write: bool, net: Net): Pager
    requires Inv(s, {}) && p < |s.pages| && Obtain(s, net.put).1.Some?
  {
    ObtainKeeps(s, net.put);
    var (t, f) := Obtain(s, net.put);
    Fill(t, p, f.value, write, net.get).0
  }

  lemma FilledKeeps(s: Pager, p: nat, write: bool, net: Net)
    requires Inv(s, {}) && p < |s.pages| && !s.pages[p].valid && AccessSlow(s, p, write, net).1.Some?
    ensures Obtain(s, net.put).1.Some?
    ensures var u := Filled(s, p, write, net);
            && Inv(u, {}) && SameConfig(s, u) && u.lastPage == s.lastPage
            && AccessSlow(s, p, write, net).0 == AfterFill(u, p, net.batchOk)
  {
    ObtainKeeps(s, net.put);
    ObtainLeavesInvalid(s, p, net.put);
    ObtainCounts(s, net.put);
    var (t, f) := Obtain(s, net.put);
    FillKeeps(t, p, f.value, write, net.get);
  }

  lemma ObtainFree(s: Pager, put: PutOutcome)
    requires Inv(s, {})
    ensures |Obtain(s, put).0.free| == (if s.free == [] then 0 else |s.free| - 1)
    ensures s.free != [] ==> Obtain(s, put).0.pages == s.pages
  {
    if s.free == [] { EmptyStackIsFull(s); }
  }

  lemma FillEffects(t: Pager, p: nat, f: nat, write: bool, get: GetOutcome)
    requires Shaped(t) && p < |t.pages| && f < |t.frames| && Fill(t, p, f, write, get).1
    ensures var u := Fill(t, p, f, write, get).0;
            && u.free == t.free
            && u.pages == t.pages[p := PageEntry(f, true, true, write, if t.socket then Remote else Local)]
  {
  }

  /** What a miss leaves of the stack and of the other pages' entries. */
  lemma FilledOthers(s: Pager, p: nat, write: bool, net: Net)
    requires Inv(s, {}) && p < |s.pages| && !s.pages[p].valid && AccessSlow(s, p, write, net).1.Some?
    ensures Obtain(s, net.put).1.Some?
    ensures var (t, u) := (Obtain(s, net.put).0, Filled(s, p, write, net));
            && |u.pages| == |t.pages| == |s.pages|
            && |u.free| == |t.free|
            && (forall q :: 0 <= q < |s.pages| && q != p ==> u.pages[q] == t.pages[q])
            && u.pages[p].location == if s.socket then Remote else Local
  {
    ObtainKeeps(s, net.put);
    ObtainLeavesInvalid(s, p, net.put);
    var (t, f) := Obtain(s, net.put);
    FillEffects(t, p, f.value, write, net.get);
  }

  lemma {:induction false} SameWanted(s: Pager, u: Pager, start: nat, q: nat)
    requires start <= q <= |s.pages| == |u.pages|
    requires forall r :: start <= r < q ==> u.pages[r] == s.pages[r]
    ensures WantedBefore(u, start, q) == WantedBefore(s, start, q)
    decreases q - start
  {
    if start == q {
    } else {
      SameWanted(s, u, start + 1, q);
    }
  }

  lemma AfterFillBringsIn(u: Pager, p: nat, batchOk: bool, q: nat)
    requires Inv(u, {}) && p < |u.pages| && q < |u.pages| && q != p && !u.pages[q].valid
    ensures var t := AfterFill(u, p, batchOk);
            |t.pages| == |u.pages| && (t.pages[q].valid <==> FollowsFilled(u, p, batchOk, q))
  {
    PrefetchKeeps(u, p + 1, u.prefetchCount, batchOk);
    if batchOk && p < q <= p + u.prefetchCount {
      PrefetchedExactly(u, p + 1, u.prefetchCount, q);
    }
  }

  // ---------- Which pages a prefetch will fetch ----------

  ghost predicate Unvisited(s: Pager, q: nat) {
    q < |s.pages| && !s.pages[q].valid && s.pages[q].location == Local
  }

  lemma StepUnvisited(s: Pager, op: Op, q: nat)
    requires Inv(s, {}) && OpOk(s, op) && Unvisited(s, q) && !(op.Touch? && op.p == q)
    ensures Unvisited(Step(s, op).0, q)
  {
    match op
    case Touch(p, write, net) =>
      if !s.pages[p].valid {
        MissLeaves(s, p, write, net, q);
      }
    case Store(p, data) =>
    case Fetch(start, count, batchOk) => PrefetchKeeps(s, start, count, batchOk);
  }

  lemma MissLeaves(s: Pager, p: nat, write: bool, net: Net, q: nat)
    requires Inv(s, {}) && p < |s.pages| && !s.pages[p].valid && Unvisited(s, q) && q != p
    ensures Unvisited(AccessSlow(s, p, write, net).0, q)
  {
    if AccessSlow(s, p, write, net).1.Some? {
      FilledKeeps(s, p, write, net);
      FilledOthers(s, p, write, net);
      ObtainLeavesInvalid(s, q, net.put);
      AfterFillLeaves(Filled(s, p, write, net), p, net.batchOk, q);
    } else {
      FailedMissKeeps(s, p, write, net);
      ObtainLeavesInvalid(s, q, net.put);
    }
  }

  lemma AfterFillLeaves(u: Pager, p: nat, batchOk: bool, q: nat)
    requires Inv(u, {}) && Unvisited(u, q)
    ensures Unvisited(AfterFill(u, p, batchOk), q)
  {
    PrefetchKeeps(u, p + 1, u.prefetchCount, batchOk);
  }

  /**
   A page the client has never accessed is never cached, however often it is prefetched:
   its entry still says LOCAL, as allocated, and the prefetcher skips it.
   */
  lemma {:induction false} UntouchedNeverCached(s: Pager, ops: seq<Op>, q: nat)
    requires Inv(s, {}) && OpsOk(s, ops) && Unvisited(s, q)
    requires forall i :: 0 <= i < |ops| ==> !(ops[i].Touch? && ops[i].p == q)
    ensures Unvisited(Run(s, ops).0, q)
    decreases |ops|
  {
    if ops == [] {
    } else {
      StepKeeps(s, ops[0]);
      StepUnvisited(s, ops[0], q);
      var t := Step(s, ops[0]).0;
      assert OpsOk(t, ops[1..]);
      UntouchedNeverCached(t, ops[1..], q);
    }
  }

  /** The operation accesses q and is answered: from then on the entry of q says REMOTE. */
  predicate Answered(op: Op, out: Output, q: nat) {
    op.Touch? && op.p == q && out.Exposed?
  }

  lemma ObtainLocations(s: Pager, put: PutOutcome, q: nat)
    requires Inv(s, {}) && q < |s.pages|
    ensures Obtain(s, put).0.pages[q].location == s.pages[q].location
  {
    if s.free == [] {
      EmptyStackIsFull(s);
      PassOverShape(s, PassLength(s, 0));
    }
  }

  lemma PrefetchLocations(s: Pager, start: nat, count: nat, batchOk: bool, q: nat)
    requires Inv(s, {}) && s.socket && q < |s.pages|
    ensures var t := Prefetch(s, start, count, batchOk);
            |t.pages| == |s.pages| && t.pages[q].location == s.pages[q].location
  {
    PrefetchKeeps(s, start, count, batchOk);
  }

  lemma AfterFillLocations(u: Pager, p: nat, batchOk: bool, q: nat)
    requires Inv(u, {}) && u.socket && q < |u.pages|
    ensures var t := AfterFill(u, p, batchOk);
            |t.pages| == |u.pages| && t.pages[q].location == u.pages[q].location
  {
    PrefetchLocations(u, p + 1, u.prefetchCount, batchOk, q);
  }

  lemma MissLocations(s: Pager, p: nat, write: bool, net: Net, q: nat)
    requires Inv(s, {}) && s.socket && p < |s.pages| && !s.pages[p].valid && q < |s.pages|
    ensures var (t, r) := AccessSlow(s, p, write, net);
            && |t.pages| == |s.pages|
            && t.pages[q].location == if q == p && r.Some? then Remote else s.pages[q].location
  {
    ObtainLocations(s, net.put, q);
    if AccessSlow(s, p, write, net).1.Some? {
      FilledKeeps(s, p, write, net);
      FilledOthers(s, p, write, net);
      AfterFillLocations(Filled(s, p, write, net), p, net.batchOk, q);
    } else {
      FailedMissKeeps(s, p, write, net);
    }
  }

  lemma FailedMissKeeps(s: Pager, p: nat, write: bool, net: Net)
    requires Inv(s, {}) && p < |s.pages| && !s.pages[p].valid && AccessSlow(s, p, write, net).1.None?
    ensures AccessSlow(s, p, write, net).0.pages == Obtain(s, net.put).0.pages
  {
    ObtainKeeps(s, net.put);
    ObtainLeavesInvalid(s, p, net.put);
  }

  lemma StepLocations(s: Pager, op: Op, q: nat)
    requires Inv(s, {}) && s.socket && OpOk(s, op) && q < |s.pages|
    ensures var (t, out) := Step(s, op);
            && |t.pages| == |s.pages|
            && (t.pages[q].location == Remote <==> s.pages[q].location == Remote || Answered(op, out, q))
  {
    match op
    case Touch(p, write, net) =>
      if !s.pages[p].valid { MissLocations(s, p, write, net, q); }
    case Store(p, data) =>
    case Fetch(start, count, batchOk) => PrefetchLocations(s, start, count, batchOk, q);
  }

  lemma {:induction false} RunLocations(s: Pager, ops: seq<Op>, q: nat)
    requires Inv(s, {}) && s.socket && OpsOk(s, ops) && q < |s.pages|
    ensures var (t, outs) := Run(s, ops);
            t.pages[q].location == Remote <==>
            s.pages[q].location == Remote || exists i :: 0 <= i < |ops| && Answered(ops[i], outs[i], q)
    decreases |ops|
  {
    if ops == [] {
    } else {
      StepKeeps(s, ops[0]);
      StepLocations(s, ops[0], q);
      var (t, out) := Step(s, ops[0]);
      assert OpsOk(t, ops[1..]);
      RunLocations(t, ops[1..], q);
      var (u, outs) := Run(t, ops[1..]);
      assert Run(s, ops) == (u, [out] + outs);
      AnsweredLater(ops, [out] + outs, q);
    }
  }

  lemma AnsweredLater(ops: seq<Op>, outs: seq<Output>, q: nat)
    requires |ops| == |outs| > 0
    ensures (exists i :: 0 <= i < |ops| && Answered(ops[i], outs[i], q)) <==>
            Answered(ops[0], outs[0], q) || exists i :: 0 <= i < |ops[1..]| && Answered(ops[1..][i], outs[1..][i], q)
  {
    if i :| 0 <= i < |ops[1..]| && Answered(ops[1..][i], outs[1..][i], q) {
      assert Answered(ops[i + 1], outs[i + 1], q);
    }
    if i :| 1 <= i < |ops| && Answered(ops[i], outs[i], q) {
      assert Answered(ops[1..][i - 1], outs[1..][i - 1], q);
    }
  }

  /**
   In every run of a new context with a server, an entry says REMOTE, so that prefetching
   can bring its page in, if and only if an access to that page has been answered.
   */
  lemma RemoteExactly(numPages: nat, numVirtual: nat, memory: seq<Page>, server: seq<Page>, ops: seq<Op>, q: nat)
    requires 1 <= numPages <= UINT32_MAX && numVirtual <= UINT32_MAX
    requires |memory| == numPages && |server| == numVirtual && q < numVirtual
    requires forall i :: 0 <= i < |ops| ==> OpOk(Create(numPages, numVirtual, true, memory, server), ops[i])
    ensures var s := Create(numPages, numVirtual, true, memory, server);
            && Inv(s, {}) && OpsOk(s, ops)
            && var (t, outs) := Run(s, ops);
               t.pages[q].location == Remote <==> exists i :: 0 <= i < |ops| && Answered(ops[i], outs[i], q)
  {
    CreateEstablishes(numPages, numVirtual, true, memory, server);
    RunLocations(Create(numPages, numVirtual, true, memory, server), ops, q);
  }
}
