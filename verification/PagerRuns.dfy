/**
 Whole runs of a client against the pager: the cache refines a flat memory, and its
 books balance.
 */
module PagerRuns {
  import opened Base
  import opened PagerModel
  import opened PagerSteps

  // ---------- One access ----------

  lemma AfterFillKeeps(s: Pager, p: nat, batchOk: bool)
    requires Inv(s, {}) && p < |s.pages| && s.pages[p].valid
    ensures var t := AfterFill(s, p, batchOk);
            && Silent(s, t, {}) && t.pages[p] == s.pages[p] && t.ticks == s.ticks
            && t.hits == s.hits && t.lastPage == p
            && (forall q :: 0 <= q < |s.pages| && s.pages[q].valid ==> t.pages[q] == s.pages[q])
  {
    PrefetchKeeps(s, p + 1, s.prefetchCount, batchOk);
    LastPageSilent(s, Prefetch(s, p + 1, s.prefetchCount, batchOk), p);
    LastPageSilent(s, s, p);
  }

  lemma LastPageSilent(s: Pager, t: Pager, p: nat)
    requires Silent(s, t, {}) && p < |s.pages|
    ensures Silent(s, t.(lastPage := p), {})
  {
  }

  lemma HitKeeps(s: Pager, p: nat, write: bool)
    requires Inv(s, {}) && p < |s.pages| && s.pages[p].valid
    ensures Silent(s, Hit(s, p, write), {})
  {
  }

  /** What an access promises its caller, whatever the network does. */
  ghost predicate Exposes(s: Pager, p: nat, write: bool, t: Pager, f: nat)
    requires Inv(s, {}) && Silent(s, t, {}) && p < |s.pages|
  {
    && f < |t.frames| && f != NO_FRAME
    && t.pages[p].valid && t.pages[p].frame == f && t.pages[p].referenced
    && t.pages[p].dirty == (write || s.pages[p].dirty)
    && (s.socket ==> t.memory[f] == PageView(s, p))
  }

  /**
   An access keeps all invariants and changes no view. When it succeeds it exposes page p's
   view in a real frame, also after a prefetch has run behind it; it fails exactly when the
   page is absent and the victim's writeback or the fetch fails. It counts as a hit exactly
   when the page was cached.
   */
  lemma AccessKeeps(s: Pager, p: nat, write: bool, net: Net)
    requires Inv(s, {}) && p < |s.pages|
    ensures var (t, r) := Access(s, p, write, net);
            && Silent(s, t, {})
            && (r.Some? ==> Exposes(s, p, write, t, r.value))
            && (r.None? <==> AccessFails(s, p, net))
            && t.hits == s.hits + (if s.pages[p].valid then 1 else 0)
            && t.lastPage == (if s.pages[p].valid || r.None? then s.lastPage else p)
  {
    if s.pages[p].valid {
      HitKeeps(s, p, write);
      assert PageView(Hit(s, p, write), p) == PageView(s, p) || !s.socket;
    } else {
      AccessSlowKeeps(s, p, write, net);
      AccessSlowCounts(s, p, write, net);
    }
  }

  lemma AccessSlowCounts(s: Pager, p: nat, write: bool, net: Net)
    requires Inv(s, {}) && p < |s.pages| && !s.pages[p].valid
    ensures var (t, r) := AccessSlow(s, p, write, net);
            t.hits == s.hits && t.lastPage == (if r.None? then s.lastPage else p)
  {
    ObtainCounts(s, net.put);
    ObtainKeeps(s, net.put);
    ObtainLeavesInvalid(s, p, net.put);
    var (t, f) := Obtain(s, net.put);
    if f.Some? {
      FillKeeps(t, p, f.value, write, net.get);
      var (u, ok) := Fill(t, p, f.value, write, net.get);
      if ok { AfterFillKeeps(u, p, net.batchOk); }
    }
  }

  lemma ObtainCounts(s: Pager, put: PutOutcome)
    requires Inv(s, {})
    ensures Obtain(s, put).0.hits == s.hits && Obtain(s, put).0.lastPage == s.lastPage
  {
    if s.free == [] { EmptyStackIsFull(s); }
  }

  lemma ObtainFails(s: Pager, put: PutOutcome)
    requires Inv(s, {})
    ensures Obtain(s, put).1.None? <==> s.free == [] && DirtyVictim(s).Some? && put.PutFailed?
  {
    if s.free == [] {
      EmptyStackIsFull(s);
      PassOverShape(s, PassLength(s, 0));
    }
  }

  lemma AccessSlowKeeps(s: Pager, p: nat, write: bool, net: Net)
    requires Inv(s, {}) && p < |s.pages| && !s.pages[p].valid
    ensures var (t, r) := AccessSlow(s, p, write, net);
            && Silent(s, t, {})
            && (r.Some? ==> Exposes(s, p, write, t, r.value))
            && (r.None? <==> AccessFails(s, p, net))
  {
    ObtainKeeps(s, net.put);
    ObtainFails(s, net.put);
    var (t, f) := Obtain(s, net.put);
    if f.Some? {
      ObtainLeavesInvalid(s, p, net.put);
      FillKeeps(t, p, f.value, write, net.get);
      var (u, ok) := Fill(t, p, f.value, write, net.get);
      SilentTrans(s, t, u, {f.value}, {});
      if ok {
        AfterFillKeeps(u, p, net.batchOk);
        var v := AfterFill(u, p, net.batchOk);
        SilentTrans(s, u, v, {}, {});
        assert AccessSlow(s, p, write, net) == (v, f);
        assert s.socket ==> PageView(v, p) == PageView(s, p);
      }
    }
  }

  // ---------- Runs refine a flat memory ----------

  /** `Store` writes page p's bytes through a pointer from an earlier write access. */
  datatype Op =
    | Touch(p: nat, write: bool, net: Net)
    | Store(p: nat, data: Page)
    | Fetch(start: nat, count: nat, batchOk: bool)

  datatype Output = Exposed(data: Page) | Failed | Stored | Refused | Done

  ghost predicate OpOk(s: Pager, op: Op) {
    match op
    case Touch(p, _, _) => p < |s.pages|
    case Store(p, _) => p < |s.pages|
    case Fetch(start, count, _) => start <= UINT32_MAX && count < 256
  }

  /** A pointer handed out for writing is live while its page stays cached and dirty. */
  predicate Live(s: Pager, p: nat)
    requires p < |s.pages|
  {
    s.pages[p].valid && s.pages[p].dirty
  }

  function Step(s: Pager, op: Op): (Pager, Output)
    requires Inv(s, {}) && OpOk(s, op)
  {
    match op
    case Touch(p, write, net) =>
      var (t, r) := Access(s, p, write, net);
      AccessKeeps(s, p, write, net);
      (t, if r.Some? then Exposed(t.memory[r.value]) else Failed)
    case Store(p, data) =>
      if Live(s, p) then (s.(memory := s.memory[s.pages[p].frame := data]), Stored) else (s, Refused)
    case Fetch(start, count, batchOk) =>
      (Prefetch(s, start, count, batchOk), Done)
  }

  /** One step of the flat memory the pager speeds up: it may refuse, but never lie. */
  ghost predicate FlatStep(m: seq<Page>, op: Op, out: Output, m': seq<Page>) {
    match op
    case Touch(p, _, net) =>
      && m' == m && p < |m|
      && (out == Exposed(m[p]) || (out == Failed && (net.put.PutFailed? || net.get.GetFailed?)))
    case Store(p, data) =>
      && p < |m|
      && ((out == Stored && m' == m[p := data]) || (out == Refused && m' == m))
    case Fetch(_, _, _) => out == Done && m' == m
  }

  lemma StepKeeps(s: Pager, op: Op)
    requires Inv(s, {}) && OpOk(s, op)
    ensures var (t, out) := Step(s, op); Inv(t, {}) && SameConfig(s, t)
    ensures var (t, out) := Step(s, op); s.socket ==> FlatStep(View(s), op, out, View(t))
  {
    var (t, out) := Step(s, op);
    match op
    case Touch(p, write, net) =>
      AccessKeeps(s, p, write, net);
      SilentView(s, t);
    case Store(p, data) =>
      if Live(s, p) { StoreKeeps(s, p, data); }
    case Fetch(start, count, batchOk) =>
      PrefetchKeeps(s, start, count, batchOk);
      SilentView(s, t);
  }

  lemma SilentView(s: Pager, t: Pager)
    requires Silent(s, t, {})
    ensures s.socket ==> View(t) == View(s)
  {
  }

  lemma StoreKeeps(s: Pager, p: nat, data: Page)
    requires Inv(s, {}) && p < |s.pages| && Live(s, p)
    ensures var t := s.(memory := s.memory[s.pages[p].frame := data]);
            Inv(t, {}) && SameConfig(s, t) && (s.socket ==> View(t) == View(s)[p := data])
  {
    var t := s.(memory := s.memory[s.pages[p].frame := data]);
    forall q | 0 <= q < |s.pages| && q != p
      ensures PageView(t, q) == PageView(s, q)
    {
    }
  }

  ghost predicate OpsOk(s: Pager, ops: seq<Op>) {
    forall i :: 0 <= i < |ops| ==> OpOk(s, ops[i])
  }

  function Run(s: Pager, ops: seq<Op>): (r: (Pager, seq<Output>))
    requires Inv(s, {}) && OpsOk(s, ops)
    ensures Inv(r.0, {}) && SameConfig(s, r.0) && |r.1| == |ops|
    decreases |ops|
  {
    if ops == [] then (s, [])
    else
      StepKeeps(s, ops[0]);
      var (t, out) := Step(s, ops[0]);
      assert OpsOk(t, ops[1..]);
      var (u, outs) := Run(t, ops[1..]);
      (u, [out] + outs)
  }

  /** outs and m' are what a flat memory starting as m could have answered and become. */
  ghost predicate FlatRun(m: seq<Page>, ops: seq<Op>, outs: seq<Output>, m': seq<Page>)
    requires |outs| == |ops|
    decreases |ops|
  {
    if ops == [] then m' == m
    else exists mid :: FlatStep(m, ops[0], outs[0], mid) && FlatRun(mid, ops[1..], outs[1..], m')
  }

  /** The cache refines flat memory, over every run and every network. */
  lemma {:induction false} CacheRefinesFlat(s: Pager, ops: seq<Op>)
    requires Inv(s, {}) && OpsOk(s, ops) && s.socket
    ensures var (t, outs) := Run(s, ops); FlatRun(View(s), ops, outs, View(t))
    decreases |ops|
  {
    if ops == [] {
    } else {
      StepKeeps(s, ops[0]);
      var (t, out) := Step(s, ops[0]);
      assert OpsOk(t, ops[1..]);
      CacheRefinesFlat(t, ops[1..]);
      var (u, outs) := Run(t, ops[1..]);
      assert ([out] + outs)[1..] == outs;
    }
  }

  /** What a run last stored in page p, or d if nothing. */
  function LastStored(ops: seq<Op>, outs: seq<Output>, p: nat, d: Page): Page
    requires |outs| == |ops|
    decreases |ops|
  {
    if ops == [] then d
    else
      var d' := if ops[0].Store? && ops[0].p == p && outs[0] == Stored then ops[0].data else d;
      LastStored(ops[1..], outs[1..], p, d')
  }

  /** View(p) changes only by a client write to p. */
  lemma {:induction false} ViewIsLastStored(s: Pager, ops: seq<Op>, p: nat)
    requires Inv(s, {}) && OpsOk(s, ops) && s.socket && p < |s.pages|
    ensures var (t, outs) := Run(s, ops); PageView(t, p) == LastStored(ops, outs, p, PageView(s, p))
    decreases |ops|
  {
    if ops == [] {
    } else {
      StepKeeps(s, ops[0]);
      var (t, out) := Step(s, ops[0]);
      assert OpsOk(t, ops[1..]);
      ViewIsLastStored(t, ops[1..], p);
      var (u, outs) := Run(t, ops[1..]);
      assert ([out] + outs)[1..] == outs;
      assert View(t)[p] == PageView(t, p) && View(s)[p] == PageView(s, p);
    }
  }

  /** A store right after a successful write access is never refused. */
  lemma WriteThenStore(s: Pager, p: nat, net: Net, data: Page)
    requires Inv(s, {}) && p < |s.pages| && s.socket
    requires Step(s, Touch(p, true, net)).1.Exposed?
    ensures var (t, outs) := Run(s, [Touch(p, true, net), Store(p, data)]);
            outs[1] == Stored && View(t) == View(s)[p := data]
  {
    var ops := [Touch(p, true, net), Store(p, data)];
    AccessKeeps(s, p, true, net);
    StepKeeps(s, ops[0]);
    var (t, out) := Step(s, ops[0]);
    StepKeeps(t, ops[1]);
    assert ops[1..] == [ops[1]];
    assert Run(t, [ops[1]]).1[0] == Step(t, ops[1]).1;
    assert Run(t, [ops[1]]).0 == Step(t, ops[1]).0;
  }

  // ---------- The books of a reachable state ----------

  /** Everything the counters, the stack and the two tables say about each other, at all times. */
  lemma BooksBalance(numPages: nat, numVirtual: nat, socket: bool, memory: seq<Page>, server: seq<Page>, ops: seq<Op>)
    requires 1 <= numPages <= UINT32_MAX && numVirtual <= UINT32_MAX
    requires |memory| == numPages && |server| == numVirtual
    requires forall i :: 0 <= i < |ops| ==>
               OpOk(Create(numPages, numVirtual, socket, memory, server), ops[i])
    ensures var s := Create(numPages, numVirtual, socket, memory, server);
            && Inv(s, {})
            && OpsOk(s, ops)
            && var t := Run(s, ops).0;
               && (socket ==> t.fetches == t.evictions + numPages - |t.free|)
               && |Resident(t)| == numPages - |t.free|
               && (forall p, q :: p in Resident(t) && q in Resident(t) && t.pages[p].frame == t.pages[q].frame ==>
                     p == q)
               && (forall f :: 0 <= f < numPages && f !in t.free ==> t.frames[f].page in Resident(t))
  {
    var s := Create(numPages, numVirtual, socket, memory, server);
    CreateEstablishes(numPages, numVirtual, socket, memory, server);
    assert OpsOk(s, ops);
    var t := Run(s, ops).0;
    ResidentCount(t);
    forall f | 0 <= f < numPages && f !in t.free
      ensures t.frames[f].page in Resident(t)
    {
      assert t.frames[f].occupied;
    }
  }

  function Resident(s: Pager): set<nat> {
    set p: nat | p < |s.pages| && s.pages[p].valid
  }

  function Occupied(s: Pager): set<nat> {
    set f: nat | f < |s.frames| && s.frames[f].occupied
  }

  lemma ResidentCount(s: Pager)
    requires Inv(s, {})
    ensures |Resident(s)| == |s.frames| - |s.free|
  {
    OccupiedCount(s);
    ImageSize(Resident(s), s);
    var image := set p | p in Resident(s) :: s.pages[p].frame;
    assert Occupied(s) <= image by {
      forall f | f in Occupied(s)
        ensures f in image
      {
        assert s.frames[f].page in Resident(s);
      }
    }
    assert Occupied(s) == image;
  }

  lemma OccupiedCount(s: Pager)
    requires Inv(s, {})
    ensures |Occupied(s)| == |s.frames| - |s.free|
  {
    var idle := FrameSet(s.free, 0);
    FrameSetSize(s.free, 0);
    assert forall f :: f in idle <==> f in s.free;
    assert Occupied(s) + idle == Below(|s.frames|);
    assert Occupied(s) !! idle;
  }

  function Below(n: nat): (r: set<nat>)
    ensures |r| == n && forall f: nat :: f in r <==> f < n
  {
    if n == 0 then {} else Below(n - 1) + {n - 1}
  }

  lemma {:induction false} ImageSize(ps: set<nat>, s: Pager)
    requires Inv(s, {}) && ps <= Resident(s)
    ensures |set p | p in ps :: s.pages[p].frame| == |ps|
  {
    if ps == {} {
    } else {
      var p :| p in ps;
      ImageSize(ps - {p}, s);
      assert (set q | q in ps :: s.pages[q].frame)
          == (set q | q in ps - {p} :: s.pages[q].frame) + {s.pages[p].frame};
      assert s.frames[s.pages[p].frame].page == p;
    }
  }
}
