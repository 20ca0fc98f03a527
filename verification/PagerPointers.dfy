/** How long the pointer handed out by an access is good: exactly as long as its page stays cached. */
module PagerPointers {
  import opened PagerModel
  import opened PagerSteps
  import opened PagerRuns
  import opened PagerResidence
  import opened PagerClock

  /** Frame f holds page p. */
  predicate Holds(s: Pager, f: nat, p: nat) {
    f < |s.frames| && s.frames[f].occupied && s.frames[f].page == p
  }

  /** A frame holds a page exactly if the page is cached there, so a page is in one frame at most. */
  lemma HoldsExactly(s: Pager, f: nat, p: nat)
    requires Inv(s, {}) && p < |s.pages|
    ensures Holds(s, f, p) <==> s.pages[p].valid && s.pages[p].frame == f
  {
  }

  lemma ObtainFrames(s: Pager, put: PutOutcome, p: nat)
    requires Inv(s, {}) && p < |s.pages| && Obtain(s, put).0.pages[p].valid
    ensures s.pages[p].valid && Obtain(s, put).0.pages[p].frame == s.pages[p].frame
  {
    if s.free == [] {
      EmptyStackIsFull(s);
      PassOverShape(s, PassLength(s, 0));
    }
  }

  /** After an eviction the stack is empty, and the prefetch behind it maps nothing. */
  lemma NothingBehindEviction(u: Pager, q: nat, batchOk: bool)
    requires Inv(u, {}) && u.free == []
    ensures AfterFill(u, q, batchOk).pages == u.pages
  {
    assert Picks(u, q + 1, 0, u.prefetchCount, 0) == [];
  }

  lemma MissFrames(s: Pager, q: nat, write: bool, net: Net, p: nat)
    requires Inv(s, {}) && q < |s.pages| && !s.pages[q].valid && p < |s.pages| && s.pages[p].valid
    ensures var t := AccessSlow(s, q, write, net).0;
            |t.pages| == |s.pages| && (t.pages[p].valid ==> t.pages[p].frame == s.pages[p].frame)
  {
    AccessSlowKeeps(s, q, write, net);
    if AccessSlow(s, q, write, net).1.None? {
      FailedMissKeeps(s, q, write, net);
      if Obtain(s, net.put).0.pages[p].valid { ObtainFrames(s, net.put, p); }
    } else {
      FilledKeeps(s, q, write, net);
      FilledOthers(s, q, write, net);
      FilledFrames(s, q, write, net, p);
    }
  }

  lemma FilledFrames(s: Pager, q: nat, write: bool, net: Net, p: nat)
    requires Inv(s, {}) && q < |s.pages| && !s.pages[q].valid && p < |s.pages| && s.pages[p].valid
    requires Obtain(s, net.put).1.Some? && Inv(Filled(s, q, write, net), {})
    requires var (t, u) := (Obtain(s, net.put).0, Filled(s, q, write, net));
             |u.pages| == |t.pages| == |s.pages| && |u.free| == |t.free| && u.pages[p] == t.pages[p] && u.pages[q].valid
    ensures var v := AfterFill(Filled(s, q, write, net), q, net.batchOk);
            |v.pages| == |s.pages| && (v.pages[p].valid ==> v.pages[p].frame == s.pages[p].frame)
  {
    var u := Filled(s, q, write, net);
    AfterFillKeeps(u, q, net.batchOk);
    if u.pages[p].valid {
      ObtainFrames(s, net.put, p);
    } else {
      ObtainFree(s, net.put);
      NothingBehindEviction(u, q, net.batchOk);
    }
  }

  /** No operation moves a page from one frame to another. */
  lemma StepFrames(s: Pager, op: Op, p: nat)
    requires Inv(s, {}) && OpOk(s, op) && p < |s.pages| && s.pages[p].valid
    ensures var t := Step(s, op).0;
            |t.pages| == |s.pages| && (t.pages[p].valid ==> t.pages[p].frame == s.pages[p].frame)
  {
    match op
    case Touch(q, write, net) =>
      if !s.pages[q].valid { MissFrames(s, q, write, net, p); }
    case Store(q, data) =>
    case Fetch(start, count, batchOk) => PrefetchKeeps(s, start, count, batchOk);
  }

  lemma {:induction false} RunFrames(s: Pager, ops: seq<Op>, p: nat)
    requires Inv(s, {}) && OpsOk(s, ops) && p < |s.pages| && StaysResident(s, ops, p)
    ensures Run(s, ops).0.pages[p].valid && Run(s, ops).0.pages[p].frame == s.pages[p].frame
    decreases |ops|
  {
    if ops == [] {
    } else {
      StepKeeps(s, ops[0]);
      StepFrames(s, ops[0], p);
      RunFrames(Step(s, ops[0]).0, ops[1..], p);
    }
  }

  /**
   A pointer lasts exactly until its page is evicted: in every run the frame an access
   exposed holds the page as long as the page stays cached, and does not once it is gone.
   */
  lemma PointerStays(s: Pager, ops: seq<Op>, p: nat)
    requires Inv(s, {}) && OpsOk(s, ops) && p < |s.pages| && s.pages[p].valid
    ensures var (f, t) := (s.pages[p].frame, Run(s, ops).0);
            && (StaysResident(s, ops, p) ==> Holds(t, f, p))
            && (!t.pages[p].valid ==> !Holds(t, f, p))
  {
    if StaysResident(s, ops, p) { RunFrames(s, ops, p); }
    HoldsExactly(Run(s, ops).0, s.pages[p].frame, p);
  }
}
