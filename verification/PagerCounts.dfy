/**
 What the counters count: every operation adds to `fetches` the pages it brings in from the
 server, and to `evictions` the pages it puts out.
 */
module PagerCounts {
  import opened PagerModel
  import opened PagerSteps
  import opened PagerRuns
  import opened PagerResidence

  /** The pages cached in t and not in s. */
  function Entered(s: Pager, t: Pager): set<nat> {
    Resident(t) - Resident(s)
  }

  /** The counters have grown from s to t by what went in and out. */
  ghost predicate Counted(s: Pager, t: Pager) {
    && t.fetches == s.fetches + (if s.socket then |Entered(s, t)| else 0)
    && t.evictions == s.evictions + |Entered(t, s)|
  }

  lemma SameResidents(s: Pager, t: Pager)
    requires Resident(t) == Resident(s) && t.fetches == s.fetches && t.evictions == s.evictions
    ensures Counted(s, t)
  {
    assert Entered(s, t) == {} && Entered(t, s) == {};
  }

  function Elements(ps: seq<nat>): set<nat> {
    set p | p in ps
  }

  lemma {:induction false} AscendingSize(ps: seq<nat>)
    requires forall j, k :: 0 <= j < k < |ps| ==> ps[j] < ps[k]
    ensures |Elements(ps)| == |ps|
  {
    if ps == [] {
      assert Elements(ps) == {};
    } else {
      var k := |ps| - 1;
      AscendingSize(ps[..k]);
      assert ps[k] !in Elements(ps[..k]);
      assert Elements(ps) == Elements(ps[..k]) + {ps[k]};
    }
  }

  /** A prefetch brings in what it picked. */
  lemma PrefetchCounts(s: Pager, start: nat, count: nat, batchOk: bool)
    requires Inv(s, {})
    ensures var t := Prefetch(s, start, count, batchOk);
            && Resident(s) <= Resident(t)
            && t.fetches == s.fetches + |Entered(s, t)| && t.evictions == s.evictions
            && (!s.socket ==> t == s)
  {
    PicksBounds(s, start, 0, count, Room(s));
    PrefetchUnfold(s, start, count, batchOk);
    var picks := Picks(s, start, 0, count, Room(s));
    var t := Prefetch(s, start, count, batchOk);
    if picks == [] || !batchOk {
      assert Entered(s, t) == {};
    } else {
      InstallAllEffects(s.(free := s.free[..|s.free| - |picks|]), picks, Popped(s.free, |picks|), 0);
      assert picks[0..] == picks;
      EnteredAre(s, t, picks);
      AscendingSize(picks);
    }
  }

  lemma EnteredAre(s: Pager, t: Pager, picks: seq<nat>)
    requires |t.pages| == |s.pages| && forall q :: q in picks ==> q < |s.pages| && !s.pages[q].valid && t.pages[q].valid
    requires forall q :: 0 <= q < |s.pages| && q !in picks ==> t.pages[q] == s.pages[q]
    ensures Entered(s, t) == Elements(picks) && Resident(s) <= Resident(t)
  {
  }

  /** Taking the page under the hand puts it out, or fails and puts out nothing. */
  lemma EvictCounts(u: Pager, put: PutOutcome)
    requires Shaped(u) && FramesMapped(u) && Full(u) && u.pages[u.frames[u.hand].page].valid
    ensures var (t, f) := EvictUnderHand(u, put);
            && t.fetches == u.fetches && t.free == u.free
            && Resident(t) == (if f.Some? then Resident(u) - {u.frames[u.hand].page} else Resident(u))
            && t.evictions == u.evictions + if f.Some? then 1 else 0
  {
  }

  /** Getting a frame puts a page out exactly if it succeeds on an empty stack. */
  lemma ObtainCountsPages(s: Pager, put: PutOutcome)
    requires Inv(s, {})
    ensures var (t, f) := Obtain(s, put);
            && Resident(t) <= Resident(s) && t.fetches == s.fetches
            && t.evictions == s.evictions + |Entered(t, s)|
            && (s.free != [] ==> Resident(t) == Resident(s))
            && (f.Some? && s.free == [] ==> t.free == [])
  {
    if s.free == [] {
      EmptyStackIsFull(s);
      EvictedOne(s, put);
    } else {
      var t := Obtain(s, put).0;
      assert Resident(t) == Resident(s) && Entered(t, s) == {};
    }
  }

  lemma EvictedOne(s: Pager, put: PutOutcome)
    requires Inv(s, {}) && Full(s) && s.free == []
    ensures var t := Evict(s, put).0;
            && Resident(t) <= Resident(s) && t.fetches == s.fetches && t.free == []
            && t.evictions == s.evictions + |Entered(t, s)|
  {
    PassOverShape(s, PassLength(s, 0));
    var u := PassOver(s, PassLength(s, 0));
    PassedOver(s, PassLength(s, 0));
    EvictCounts(u, put);
    var (t, f) := EvictUnderHand(u, put);
    assert Entered(t, s) == if f.Some? then {u.frames[u.hand].page} else {};
  }

  lemma PassedOver(s: Pager, k: nat)
    requires Inv(s, {}) && Full(s) && k <= |s.frames|
    ensures var u := PassOver(s, k);
            && Resident(u) == Resident(s) && Full(u) && FramesMapped(u)
            && u.fetches == s.fetches && u.evictions == s.evictions && u.free == s.free
            && u.frames[u.hand].page in Resident(u)
  {
    PassOverShape(s, k);
    assert s.frames[ClockAt(s.hand, k, |s.frames|)].occupied;
  }

  lemma FilledCounts(s: Pager, p: nat, write: bool, net: Net)
    requires Inv(s, {}) && p < |s.pages| && !s.pages[p].valid && AccessSlow(s, p, write, net).1.Some?
    ensures Obtain(s, net.put).1.Some?
    ensures var (t, u) := (Obtain(s, net.put).0, Filled(s, p, write, net));
            && Resident(u) == Resident(t) + {p} && u.free == t.free && u.socket == s.socket
            && u.fetches == t.fetches + (if s.socket then 1 else 0) && u.evictions == t.evictions
  {
    ObtainKeeps(s, net.put);
    ObtainLeavesInvalid(s, p, net.put);
    var (t, f) := Obtain(s, net.put);
    FillEffects(t, p, f.value, write, net.get);
    FillCounters(t, p, f.value, write, net.get);
  }

  lemma FillCounters(t: Pager, p: nat, f: nat, write: bool, get: GetOutcome)
    requires Shaped(t) && p < |t.pages| && f < |t.frames| && Fill(t, p, f, write, get).1
    ensures var u := Fill(t, p, f, write, get).0;
            u.socket == t.socket && u.evictions == t.evictions && u.fetches == t.fetches + if t.socket then 1 else 0
  {
  }

  lemma AfterFillCounts(u: Pager, p: nat, batchOk: bool)
    requires Inv(u, {})
    ensures Grew(u, AfterFill(u, p, batchOk))
  {
    PrefetchGrows(u, p + 1, u.prefetchCount, batchOk);
    NothingGrew(u);
    var t := if Sequential(u, p) then Prefetch(u, p + 1, u.prefetchCount, batchOk) else u;
    LastPageUncounted(u, t, p);
  }

  /** From u to v pages only came in, and none without a server or a free frame. */
  ghost predicate Grew(u: Pager, v: Pager) {
    && Resident(u) <= Resident(v) && v.evictions == u.evictions
    && v.fetches == u.fetches + (if u.socket then |Entered(u, v)| else 0)
    && (u.free == [] || !u.socket ==> Resident(v) == Resident(u))
  }

  lemma NothingGrew(u: Pager)
    ensures Grew(u, u)
  {
    assert Entered(u, u) == {};
  }

  lemma LastPageUncounted(u: Pager, t: Pager, p: nat)
    requires Grew(u, t)
    ensures Grew(u, t.(lastPage := p))
  {
    assert Resident(t.(lastPage := p)) == Resident(t);
  }

  lemma PrefetchGrows(u: Pager, start: nat, count: nat, batchOk: bool)
    requires Inv(u, {})
    ensures Grew(u, Prefetch(u, start, count, batchOk))
  {
    PrefetchCounts(u, start, count, batchOk);
    if u.free == [] { assert Picks(u, start, 0, count, 0) == []; }
  }

  lemma MissCounts(s: Pager, p: nat, write: bool, net: Net)
    requires Inv(s, {}) && p < |s.pages| && !s.pages[p].valid
    ensures Counted(s, AccessSlow(s, p, write, net).0)
  {
    if AccessSlow(s, p, write, net).1.None? {
      FailedMissCounts(s, p, write, net);
    } else {
      FilledKeeps(s, p, write, net);
      var (t, u) := (Obtain(s, net.put).0, Filled(s, p, write, net));
      ObtainCountsPages(s, net.put);
      FilledCounts(s, p, write, net);
      AfterFillCounts(u, p, net.batchOk);
      SumCounts(s, t, u, AfterFill(u, p, net.batchOk), p);
    }
  }

  /** A frame got, a page filled in, and what came behind it, together. */
  lemma SumCounts(s: Pager, t: Pager, u: Pager, v: Pager, p: nat)
    requires p !in Resident(s) && Resident(t) <= Resident(s) && t.fetches == s.fetches
    requires t.evictions == s.evictions + |Entered(t, s)|
    requires Resident(t) == Resident(s) || u.free == []
    requires Resident(u) == Resident(t) + {p} && u.socket == s.socket && u.evictions == t.evictions
    requires u.fetches == t.fetches + (if s.socket then 1 else 0)
    requires Grew(u, v)
    ensures Counted(s, v)
  {
    MissSets(Resident(s), Resident(t), Resident(u), Resident(v), p);
    assert |Entered(s, v)| == 1 + |Entered(u, v)| && Entered(v, s) == Entered(t, s);
  }

  lemma FailedMissCounts(s: Pager, p: nat, write: bool, net: Net)
    requires Inv(s, {}) && p < |s.pages| && !s.pages[p].valid && AccessSlow(s, p, write, net).1.None?
    ensures Counted(s, AccessSlow(s, p, write, net).0)
  {
    ObtainCountsPages(s, net.put);
    FailedMissKeeps(s, p, write, net);
    FailedMissCounters(s, p, write, net);
    assert Entered(s, AccessSlow(s, p, write, net).0) == {};
  }

  lemma FailedMissCounters(s: Pager, p: nat, write: bool, net: Net)
    requires Inv(s, {}) && p < |s.pages| && !s.pages[p].valid && AccessSlow(s, p, write, net).1.None?
    ensures var (t, v) := (Obtain(s, net.put).0, AccessSlow(s, p, write, net).0);
            v.fetches == t.fetches && v.evictions == t.evictions
  {
    ObtainKeeps(s, net.put);
    ObtainLeavesInvalid(s, p, net.put);
  }

  lemma MissSets(s: set<nat>, t: set<nat>, u: set<nat>, v: set<nat>, p: nat)
    requires t <= s && u == t + {p} && u <= v && p !in s && (t == s || v == u)
    ensures |v - s| == 1 + |v - u| && s - v == s - t
  {
    assert v - s == (v - u) + {p};
  }

  /**
   Every operation, whatever fails in it: `fetches` grows by the number of pages that came
   in, or not at all without a server, and `evictions` by the number of pages that went.
   */
  lemma StepCounts(s: Pager, op: Op)
    requires Inv(s, {}) && OpOk(s, op)
    ensures Counted(s, Step(s, op).0)
  {
    match op
    case Touch(p, write, net) =>
      if s.pages[p].valid {
        SameResidents(s, Step(s, op).0);
      } else {
        MissCounts(s, p, write, net);
      }
    case Store(p, data) => SameResidents(s, Step(s, op).0);
    case Fetch(start, count, batchOk) =>
      PrefetchCounts(s, start, count, batchOk);
      assert Entered(Step(s, op).0, s) == {};
      if !s.socket { SameResidents(s, s); }
  }
}
