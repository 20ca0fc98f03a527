/**
 Page replacement: which frame the clock takes, and the second chance it gives every
 accessed page over whole runs.
 */
module PagerClock {
  import opened Arith
  import opened PagerModel
  import opened PagerSteps
  import opened PagerRuns

  /** The hand passes over d frames, all referenced, and stops at the next one, which is not. */
  ghost predicate StopsAfter(s: Pager, d: nat)
    requires Shaped(s) && FramesMapped(s) && Full(s)
  {
    && d <= |s.frames|
    && (forall i :: 0 <= i < d ==> Referenced(s, ClockAt(s.hand, i, |s.frames|)))
    && (d < |s.frames| ==> !Referenced(s, ClockAt(s.hand, d, |s.frames|)))
  }

  /**
   Eviction takes the first unreferenced frame in cyclic order from the hand, or the
   hand's own frame when all are referenced, after passing over d <= numPages frames;
   exactly the pages passed over lose their reference bits. A failed writeback leaves
   the hand on the victim.
   */
  lemma ClockVictim(s: Pager, put: PutOutcome) returns (d: nat)
    requires Inv(s, {}) && Full(s)
    ensures StopsAfter(s, d)
    ensures var (t, r) := Evict(s, put);
            var victim := ClockAt(s.hand, d, |s.frames|);
            && |t.pages| == |s.pages|
            && (r.Some? ==> r.value == victim && t.ticks == s.ticks + d + 1)
            && (r.None? ==> t.hand == victim && t.ticks == s.ticks + d)
            && (forall p :: 0 <= p < |s.pages| && s.pages[p].valid ==>
                  (t.pages[p].referenced <==>
                     s.pages[p].referenced && d <= Ahead(s.hand, s.pages[p].frame, |s.frames|)))
  {
    d := PassLength(s, 0);
    PassOverShape(s, d);
    EvictUnderHandBits(PassOver(s, d), put);
  }

  lemma EvictUnderHandBits(u: Pager, put: PutOutcome)
    requires Shaped(u) && FramesMapped(u) && Full(u)
    ensures var (t, r) := EvictUnderHand(u, put);
            && |t.pages| == |u.pages|
            && (r.Some? ==> r.value == u.hand && t.ticks == u.ticks + 1)
            && (r.None? ==> t.hand == u.hand && t.ticks == u.ticks)
            && (forall p :: 0 <= p < |u.pages| ==> t.pages[p].referenced == u.pages[p].referenced)
  {
  }

  // ---------- Second chance ----------

  /**
   Page p's reference bit was set when the hand had made t0 advances: either it is still
   set, or the hand has passed p's frame since.
   */
  ghost predicate Chance(s: Pager, p: nat, t0: nat)
    requires Shaped(s)
  {
    && p < |s.pages| && s.pages[p].valid && t0 <= s.ticks
    && (s.pages[p].referenced || exists c: nat :: PassedAt(s, p, t0, c))
  }

  ghost predicate PassedAt(s: Pager, p: nat, t0: nat, c: nat)
    requires Shaped(s) && p < |s.pages|
  {
    t0 <= c < s.ticks && c % |s.frames| == s.pages[p].frame
  }

  lemma PassOverChance(s: Pager, k: nat, p: nat, t0: nat)
    requires Inv(s, {}) && k <= |s.frames| && Chance(s, p, t0)
    ensures Inv(PassOver(s, k), {}) && Chance(PassOver(s, k), p, t0)
  {
    PassOverKeeps(s, k);
    var t, n, f := PassOver(s, k), |s.frames|, s.pages[p].frame;
    if s.pages[p].referenced && !t.pages[p].referenced {
      var a := Ahead(s.hand, f, n);
      ModAdd(s.ticks, a, n);
      assert ClockAt(s.hand, a, n) == f;
      assert PassedAt(t, p, t0, s.ticks + a);
    } else if !s.pages[p].referenced {
      var c: nat :| PassedAt(s, p, t0, c);
      assert PassedAt(t, p, t0, c);
    }
  }

  lemma EvictUnderHandChance(u: Pager, put: PutOutcome, p: nat, t0: nat)
    requires Inv(u, {}) && Full(u) && !Referenced(u, u.hand) && Chance(u, p, t0)
    ensures var t := EvictUnderHand(u, put).0;
            && Shaped(t) && |t.pages| == |u.pages| && |t.frames| == |u.frames|
            && (t.pages[p].valid ==> Chance(t, p, t0))
            && (!t.pages[p].valid ==> t.ticks > t0 + |u.frames|)
  {
    ModAdd(u.ticks, 1, |u.frames|);
    var t := EvictUnderHand(u, put).0;
    if !u.pages[p].referenced {
      var c: nat :| PassedAt(u, p, t0, c);
      if t.pages[p].valid {
        assert PassedAt(t, p, t0, c);
      } else {
        SameResidueApart(c, u.ticks, |u.frames|);
      }
    }
  }

  /** An eviction either spares p, or comes after the hand has gone all the way round since t0. */
  lemma EvictChance(s: Pager, put: PutOutcome, p: nat, t0: nat)
    requires Inv(s, {}) && Full(s) && Chance(s, p, t0)
    ensures var t := Evict(s, put).0;
            && Shaped(t) && |t.pages| == |s.pages| && |t.frames| == |s.frames|
            && (t.pages[p].valid ==> Chance(t, p, t0))
            && (!t.pages[p].valid ==> t.ticks > t0 + |s.frames|)
  {
    var d := PassLength(s, 0);
    PassOverChance(s, d, p, t0);
    VictimUnreferenced(s);
    EvictUnderHandChance(PassOver(s, d), put, p, t0);
  }

  /** Steps that leave p's entry alone, or set its bit, and do not move the hand back. */
  lemma ChanceSurvives(s: Pager, t: Pager, p: nat, t0: nat)
    requires Shaped(s) && Shaped(t) && |t.frames| == |s.frames| && |t.pages| == |s.pages|
    requires Chance(s, p, t0) && s.ticks <= t.ticks
    requires t.pages[p] == s.pages[p] || (t.pages[p].valid && t.pages[p].referenced)
    ensures Chance(t, p, t0)
  {
    if !t.pages[p].referenced {
      var c: nat :| PassedAt(s, p, t0, c);
      assert PassedAt(t, p, t0, c);
    }
  }

  lemma StepChance(s: Pager, op: Op, p: nat, t0: nat)
    requires Inv(s, {}) && OpOk(s, op) && Chance(s, p, t0)
    ensures var t := Step(s, op).0;
            && Inv(t, {}) && |t.pages| == |s.pages|
            && (t.pages[p].valid ==> Chance(t, p, t0))
            && (!t.pages[p].valid ==> t.ticks > t0 + |s.frames|)
  {
    StepKeeps(s, op);
    var t := Step(s, op).0;
    match op
    case Touch(q, write, net) =>
      if s.pages[q].valid {
        ChanceSurvives(s, t, p, t0);
      } else {
        SlowChance(s, q, write, net, p, t0);
      }
    case Store(q, data) =>
      ChanceSurvives(s, t, p, t0);
    case Fetch(start, count, batchOk) =>
      PrefetchKeeps(s, start, count, batchOk);
      ChanceSurvives(s, t, p, t0);
  }

  lemma SlowChance(s: Pager, q: nat, write: bool, net: Net, p: nat, t0: nat)
    requires Inv(s, {}) && q < |s.pages| && !s.pages[q].valid && Chance(s, p, t0)
    ensures var t := AccessSlow(s, q, write, net).0;
            && Shaped(t) && |t.pages| == |s.pages| && |t.frames| == |s.frames|
            && (t.pages[p].valid ==> Chance(t, p, t0))
            && (!t.pages[p].valid ==> t.ticks > t0 + |s.frames|)
  {
    ObtainKeeps(s, net.put);
    ObtainLeavesInvalid(s, q, net.put);
    var (u, f) := Obtain(s, net.put);
    if |s.free| > 0 {
      ChanceSurvives(s, u, p, t0);
    } else {
      EmptyStackIsFull(s);
      EvictKeeps(s, net.put);
      EvictChance(s, net.put, p, t0);
    }
    if f.Some? {
      FillKeeps(u, q, f.value, write, net.get);
      var (v, ok) := Fill(u, q, f.value, write, net.get);
      if ok {
        FillThenPrefetch(s, u, q, f.value, write, net, p, t0);
      } else if u.pages[p].valid {
        ChanceSurvives(u, v, p, t0);
      }
    }
  }

  /** After an eviction the stack is empty, so a prefetch behind it cannot bring p back. */
  lemma FillThenPrefetch(s: Pager, u: Pager, q: nat, f: nat, write: bool, net: Net, p: nat, t0: nat)
    requires Inv(u, {f}) && q < |u.pages| && !u.pages[q].valid && f < |u.frames|
    requires p < |u.pages| && p != q && (u.socket ==> net.get.GetOk?)
    requires u.pages[p].valid ==> Chance(u, p, t0)
    requires !u.pages[p].valid ==> u.free == [] && u.ticks > t0 + |u.frames|
    requires Inv(Fill(u, q, f, write, net.get).0, {})
    ensures var t := AfterFill(Fill(u, q, f, write, net.get).0, q, net.batchOk);
            && Shaped(t) && |t.pages| == |u.pages| && |t.frames| == |u.frames|
            && (t.pages[p].valid ==> Chance(t, p, t0))
            && (!t.pages[p].valid ==> t.ticks > t0 + |u.frames|)
  {
    var v := Fill(u, q, f, write, net.get).0;
    AfterFillKeeps(v, q, net.batchOk);
    var t := AfterFill(v, q, net.batchOk);
    assert v.pages[p] == u.pages[p] && v.ticks == u.ticks && v.free == u.free;
    if u.pages[p].valid {
      ChanceSurvives(u, t, p, t0);
    } else {
      assert Picks(v, q + 1, 0, v.prefetchCount, 0) == [];
      assert t.pages == v.pages;
    }
  }

  ghost predicate StaysResident(s: Pager, ops: seq<Op>, p: nat)
    requires Inv(s, {}) && OpsOk(s, ops) && p < |s.pages|
    decreases |ops|
  {
    && s.pages[p].valid
    && (ops != [] ==>
          && Inv(Step(s, ops[0]).0, {})
          && OpsOk(Step(s, ops[0]).0, ops[1..])
          && p < |Step(s, ops[0]).0.pages|
          && StaysResident(Step(s, ops[0]).0, ops[1..], p))
  }

  lemma {:induction false} RunChance(s: Pager, ops: seq<Op>, p: nat, t0: nat)
    requires Inv(s, {}) && OpsOk(s, ops) && p < |s.pages| && StaysResident(s, ops, p) && Chance(s, p, t0)
    ensures Chance(Run(s, ops).0, p, t0)
    decreases |ops|
  {
    if ops == [] {
    } else {
      StepChance(s, ops[0], p, t0);
      RunChance(Step(s, ops[0]).0, ops[1..], p, t0);
    }
  }

  /** Somewhere between `from` and `to` advances the hand stood on frame f, and moved on. */
  ghost predicate Visited(from: nat, to: nat, n: nat, f: nat)
    requires n > 0
  {
    exists c: nat :: from <= c < to && c % n == f
  }

  lemma FullTurn(from: nat, to: nat, n: nat)
    requires 0 < n <= to - from
    ensures forall f :: 0 <= f < n ==> Visited(from, to, n, f)
  {
    forall f | 0 <= f < n
      ensures Visited(from, to, n, f)
    {
      var c := ResidueWithin(from, f, n);
    }
  }

  /**
   Second chance over whole runs: from a state s where page p's reference bit is set, to
   the step that evicts p, the hand passes every frame at least once, whatever failed
   writebacks, prefetches and other accesses happen in between.
   */
  lemma SecondChance(s: Pager, ops: seq<Op>, last: Op, p: nat)
    requires Inv(s, {}) && OpsOk(s, ops) && OpOk(s, last) && p < |s.pages| && s.pages[p].referenced
    ensures OpOk(Run(s, ops).0, last)
    ensures var t := Step(Run(s, ops).0, last).0;
            StaysResident(s, ops, p) && p !in Resident(t) ==>
              && t.ticks > s.ticks + |s.frames|
              && forall f :: 0 <= f < |s.frames| ==> Visited(s.ticks, t.ticks, |s.frames|, f)
  {
    var u := Run(s, ops).0;
    assert OpOk(u, last);
    if StaysResident(s, ops, p) && p !in Resident(Step(u, last).0) {
      RunChance(s, ops, p, s.ticks);
      StepChance(u, last, p, s.ticks);
      FullTurn(s.ticks, Step(u, last).0.ticks, |s.frames|);
    }
  }
}
