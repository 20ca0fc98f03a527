/**
 Each operation of the pager keeps the bookkeeping, the faithfulness of clean pages and
 the fetch balance, and (in socket mode) leaves every page's view alone.
 */
module PagerSteps {
  import opened Arith
  import opened Base
  import opened PagerModel

  ghost predicate SameViews(s: Pager, t: Pager)
    requires Shaped(s) && PagesMapped(s) && Shaped(t) && PagesMapped(t)
  {
    && |s.pages| == |t.pages|
    && (s.socket ==> forall p :: 0 <= p < |s.pages| ==> PageView(t, p) == PageView(s, p))
  }

  /** t is s after an internal step that holds `held`: all invariants, no view changed. */
  ghost predicate Silent(s: Pager, t: Pager, held: set<nat>) {
    Shaped(s) && PagesMapped(s) && Inv(t, held) && SameConfig(s, t) && SameViews(s, t)
  }

  lemma SilentTrans(s: Pager, t: Pager, u: Pager, held: set<nat>, held': set<nat>)
    requires Silent(s, t, held) && Silent(t, u, held')
    ensures Silent(s, u, held')
  {
  }

  lemma CreateEstablishes(numPages: nat, numVirtual: nat, socket: bool, memory: seq<Page>, server: seq<Page>)
    requires 1 <= numPages <= UINT32_MAX && numVirtual <= UINT32_MAX
    requires |memory| == numPages && |server| == numVirtual
    ensures var s := Create(numPages, numVirtual, socket, memory, server);
            Inv(s, {}) && View(s) == server
  {
    var s := Create(numPages, numVirtual, socket, memory, server);
    forall f: nat
      ensures f in s.free <==> f < numPages
    {
      if f < numPages { assert s.free[numPages - 1 - f] == f; }
    }
  }

  // ---------- Eviction ----------

  lemma PassOverKeeps(s: Pager, k: nat)
    requires Inv(s, {}) && k <= |s.frames|
    ensures Silent(s, PassOver(s, k), {})
    ensures PassOver(s, k).frames == s.frames && PassOver(s, k).free == s.free
  {
    PassOverShape(s, k);
  }

  /** Where the hand stops, the page has no reference bit left. */
  lemma VictimUnreferenced(s: Pager)
    requires Inv(s, {}) && Full(s)
    ensures var t := PassOver(s, PassLength(s, 0));
            FramesMapped(t) && !Referenced(t, t.hand)
  {
    var d := PassLength(s, 0);
    PassOverShape(s, d);
    var t := PassOver(s, d);
    var p := s.frames[t.hand].page;
    assert s.pages[p].valid && s.pages[p].frame == t.hand;
    if d == |s.frames| {
      assert t.hand == s.hand && Ahead(s.hand, t.hand, |s.frames|) == 0;
    } else {
      assert Ahead(s.hand, t.hand, |s.frames|) == d;
    }
  }

  lemma WriteBackKeeps(s: Pager, put: PutOutcome)
    requires Inv(s, {}) && Full(s)
    ensures Silent(s, WriteBack(s, put), {})
  {
  }

  lemma UnmapKeeps(s: Pager)
    requires Inv(s, {}) && Full(s) && s.free == [] && !Referenced(s, s.hand)
    requires NeedsWriteback(s) ==> s.server[s.frames[s.hand].page] == s.memory[s.hand]
    ensures Silent(s, Unmap(s), {s.hand}) && Unmap(s).free == []
  {
    var t := Unmap(s);
    ModAdd(s.ticks, 1, |s.frames|);
    assert |{s.hand}| == 1;
    var p := s.frames[s.hand].page;
    assert s.pages[p].valid && s.pages[p].frame == s.hand;
    forall f: nat
      ensures f in t.free <==> f < |t.frames| && !t.frames[f].occupied && f !in {s.hand}
    {
    }
    if s.socket {
      assert PageView(t, p) == PageView(s, p);
    }
  }

  /** `evict_page` under any network: a failed writeback holds nothing, a success holds the freed frame. */
  lemma EvictKeeps(s: Pager, put: PutOutcome)
    requires Inv(s, {}) && Full(s) && s.free == []
    ensures var (t, r) := Evict(s, put);
            && t.free == []
            && (r.None? ==> Silent(s, t, {}))
            && (r.Some? ==> r.value < |s.frames| && Silent(s, t, {r.value}))
  {
    var d := PassLength(s, 0);
    PassOverKeeps(s, d);
    VictimUnreferenced(s);
    var t := PassOver(s, d);
    if NeedsWriteback(t) {
      WriteBackKeeps(t, put);
      if put.PutAcked? { UnmapKeeps(WriteBack(t, put)); }
    } else {
      UnmapKeeps(t);
    }
  }

  // ---------- Filling a frame ----------

  lemma ObtainKeeps(s: Pager, put: PutOutcome)
    requires Inv(s, {})
    ensures var (t, r) := Obtain(s, put);
            && (r.None? ==> Silent(s, t, {}))
            && (r.Some? ==> r.value < |s.frames| && Silent(s, t, {r.value}))
  {
    if |s.free| > 0 {
      PopKeeps(s, {});
    } else {
      EmptyStackIsFull(s);
      EvictKeeps(s, put);
    }
  }

  lemma PopKeeps(s: Pager, held: set<nat>)
    requires Inv(s, held) && |s.free| > 0
    ensures var f := s.free[|s.free| - 1];
            f !in held && Silent(s, s.(free := s.free[..|s.free| - 1]), held + {f})
  {
    var f := s.free[|s.free| - 1];
    var t := s.(free := s.free[..|s.free| - 1]);
    assert f in s.free;
    forall g: nat
      ensures g in t.free <==> g < |t.frames| && !t.frames[g].occupied && g !in held + {f}
    {
      if g in s.free && g != f {
        var i :| 0 <= i < |s.free| && s.free[i] == g;
        assert t.free[i] == g;
      }
      assert f in t.free ==> false;
    }
    assert |held + {f}| == |held| + 1;
  }

  /** Pushing a held frame never overflows the stack, which has room for every frame. */
  lemma PushKeeps(s: Pager, held: set<nat>, f: nat)
    requires Inv(s, held) && f in held
    ensures |s.free| < |s.frames|
    ensures Silent(s, s.(free := s.free + [f]), held - {f})
  {
    assert forall i :: 0 <= i < |s.free| ==> s.free[i] in s.free;
    DistinctFit(s.free + [f], |s.frames|);
    var t := s.(free := s.free + [f]);
    forall g: nat
      ensures g in t.free <==> g < |t.frames| && !t.frames[g].occupied && g !in held - {f}
    {
    }
    assert |held - {f}| == |held| - 1;
  }

  /** Distinct numbers below n are at most n many. */
  lemma {:induction false} DistinctFit(xs: seq<nat>, n: nat)
    requires forall i, j :: 0 <= i < j < |xs| ==> xs[i] != xs[j]
    requires forall i :: 0 <= i < |xs| ==> xs[i] < n
    ensures |xs| <= n
  {
    if xs == [] {
      return;
    }
    assert xs[0] < n;
    if exists i :: 0 <= i < |xs| && xs[i] == n - 1 {
      var i :| 0 <= i < |xs| && xs[i] == n - 1;
      DistinctFit(xs[..i] + xs[i + 1..], n - 1);
    } else {
      DistinctFit(xs, n - 1);
    }
  }

  lemma InstallKeeps(s: Pager, held: set<nat>, p: nat, f: nat, e: PageEntry, data: Page, t: Pager)
    requires Inv(s, held) && p < |s.pages| && !s.pages[p].valid && f in held
    requires e.valid && e.frame == f
    requires e.location == if s.socket then Remote else Local
    requires s.socket ==> data == s.server[p]
    requires t == Install(s, p, f, e, data).(fetches := if s.socket then s.fetches + 1 else s.fetches)
    ensures Silent(s, t, held - {f})
  {
    assert |held - {f}| == |held| - 1;
    forall g: nat
      ensures g in t.free <==> g < |t.frames| && !t.frames[g].occupied && g !in held - {f}
    {
    }
  }

  lemma FillKeeps(s: Pager, p: nat, f: nat, write: bool, get: GetOutcome)
    requires Inv(s, {f}) && p < |s.pages| && !s.pages[p].valid && f < |s.frames|
    ensures var (t, ok) := Fill(s, p, f, write, get); Silent(s, t, {})
    ensures var (t, ok) := Fill(s, p, f, write, get);
            ok ==> t.pages[p].valid && t.pages[p].frame == f && t.pages[p].referenced && t.pages[p].dirty == write
  {
    var (t, ok) := Fill(s, p, f, write, get);
    assert {f} - {f} == {};
    if ok {
      var e := PageEntry(f, true, true, write, if s.socket then Remote else Local);
      InstallKeeps(s, {f}, p, f, e, if s.socket then s.server[p] else s.memory[f], t);
    } else {
      var u := s.(memory := s.memory[f := get.scribble]);
      forall q | 0 <= q < |s.pages| && s.pages[q].valid
        ensures s.pages[q].frame != f
      {
      }
      assert Silent(s, u, {f});
      PushKeeps(u, {f}, f);
    }
  }

  // ---------- Prefetch ----------

  function FrameSet(frames: seq<nat>, j: nat): set<nat>
    requires j <= |frames|
  {
    set i | j <= i < |frames| :: frames[i]
  }

  /** Popping the top k frames holds exactly those k frames. */
  lemma PopAllKeeps(s: Pager, k: nat)
    requires Inv(s, {}) && k <= |s.free|
    ensures Silent(s, s.(free := s.free[..|s.free| - k]), FrameSet(Popped(s.free, k), 0))
    ensures forall i :: 0 <= i < k ==> Popped(s.free, k)[i] < |s.frames|
    ensures forall i, j :: 0 <= i < j < k ==> Popped(s.free, k)[i] != Popped(s.free, k)[j]
  {
    var t, popped := s.(free := s.free[..|s.free| - k]), Popped(s.free, k);
    FrameSetSize(popped, 0);
    PoppedSplit(s.free, k);
    assert forall i :: 0 <= i < k ==> popped[i] in s.free;
    assert FreeExact(t, FrameSet(popped, 0));
  }

  lemma PoppedSplit(free: seq<nat>, k: nat)
    requires k <= |free|
    requires forall i, j :: 0 <= i < j < |free| ==> free[i] != free[j]
    ensures forall f :: f in free[..|free| - k] <==> f in free && f !in FrameSet(Popped(free, k), 0)
    ensures forall f :: f in FrameSet(Popped(free, k), 0) ==> f in free
  {
    var rest, popped := free[..|free| - k], Popped(free, k);
    forall f | f in free
      ensures f in rest || f in FrameSet(popped, 0)
    {
      var i :| 0 <= i < |free| && free[i] == f;
      if i < |free| - k { assert rest[i] == f; } else { assert popped[|free| - 1 - i] == f; }
    }
  }

  lemma {:induction false} FrameSetSize(frames: seq<nat>, j: nat)
    requires j <= |frames|
    requires forall i, k :: 0 <= i < k < |frames| ==> frames[i] != frames[k]
    ensures |FrameSet(frames, j)| == |frames| - j
    decreases |frames| - j
  {
    if j == |frames| {
      assert FrameSet(frames, j) == {};
    } else {
      FrameSetSize(frames, j + 1);
      assert FrameSet(frames, j) == {frames[j]} + FrameSet(frames, j + 1);
    }
  }

  /** Pushing the popped frames frames[j..] back, in order. */
  lemma {:induction false} PushAllKeeps(s: Pager, frames: seq<nat>, j: nat)
    requires j <= |frames| && Inv(s, FrameSet(frames, j))
    requires forall i, k :: 0 <= i < k < |frames| ==> frames[i] != frames[k]
    ensures Silent(s, s.(free := s.free + frames[j..]), {})
    decreases |frames| - j
  {
    if j == |frames| {
      assert s.free + frames[j..] == s.free;
      assert FrameSet(frames, j) == {};
    } else {
      PushKeeps(s, FrameSet(frames, j), frames[j]);
      assert FrameSet(frames, j) - {frames[j]} == FrameSet(frames, j + 1);
      var t := s.(free := s.free + [frames[j]]);
      PushAllKeeps(t, frames, j + 1);
      assert s.free + frames[j..] == t.free + frames[j + 1..];
    }
  }

  lemma {:induction false} InstallAllKeeps(s: Pager, picks: seq<nat>, frames: seq<nat>, j: nat)
    requires |picks| == |frames| && j <= |picks| && Inv(s, FrameSet(frames, j)) && s.socket
    requires forall i :: 0 <= i < |picks| ==> picks[i] < |s.pages| && frames[i] < |s.frames|
    requires forall i :: j <= i < |picks| ==> !s.pages[picks[i]].valid && s.pages[picks[i]].location == Remote
    requires forall i, k :: 0 <= i < k < |picks| ==> picks[i] != picks[k] && frames[i] != frames[k]
    ensures Silent(s, InstallAll(s, picks, frames, j), {})
    decreases |picks| - j
  {
    if j == |picks| {
      assert FrameSet(frames, j) == {};
    } else {
      var p, f := picks[j], frames[j];
      var t := InstallClean(s, p, f);
      InstallKeeps(s, FrameSet(frames, j), p, f, t.pages[p], s.server[p], t);
      assert FrameSet(frames, j) - {f} == FrameSet(frames, j + 1);
      InstallAllKeeps(t, picks, frames, j + 1);
      SilentTrans(s, t, InstallAll(t, picks, frames, j + 1), FrameSet(frames, j + 1), {});
    }
  }

  /** Mapping pages changes their own entries only, and none of the counters but `fetches`. */
  lemma {:induction false} InstallAllEffects(s: Pager, picks: seq<nat>, frames: seq<nat>, j: nat)
    requires |picks| == |frames| && j <= |picks| && Shaped(s)
    requires forall i :: 0 <= i < |picks| ==> picks[i] < |s.pages| && frames[i] < |s.frames|
    ensures var t := InstallAll(s, picks, frames, j);
            && t == s.(memory := t.memory, pages := t.pages, frames := t.frames, fetches := s.fetches + |picks| - j)
            && |t.pages| == |s.pages|
            && (forall q :: 0 <= q < |s.pages| && q !in picks[j..] ==> t.pages[q] == s.pages[q])
            && (forall q :: 0 <= q < |s.pages| && q in picks[j..] ==>
                  t.pages[q].valid && !t.pages[q].dirty && !t.pages[q].referenced)
    decreases |picks| - j
  {
    if j == |picks| {
    } else {
      InstallAllEffects(InstallClean(s, picks[j], frames[j]), picks, frames, j + 1);
      assert picks[j..] == [picks[j]] + picks[j + 1..];
    }
  }

  /** The three ways a prefetch can go. */
  lemma PrefetchUnfold(s: Pager, start: nat, count: nat, batchOk: bool)
    requires Inv(s, {})
    ensures var ids := Picks(s, start, 0, count, Room(s));
            && |ids| <= |s.free|
            && var rest, popped := s.free[..|s.free| - |ids|], Popped(s.free, |ids|);
               && (forall i :: 0 <= i < |ids| ==> ids[i] < |s.pages| && popped[i] < |s.frames|)
               && |rest| + |popped| <= |s.frames|
               && Prefetch(s, start, count, batchOk)
               == if ids == [] then s
                  else if batchOk then InstallAll(s.(free := rest), ids, popped, 0)
                  else s.(free := rest + popped)
  {
    var ids := Picks(s, start, 0, count, Room(s));
    PicksBounds(s, start, 0, count, Room(s));
    PopAllKeeps(s, |ids|);
    assert forall i :: 0 <= i < |s.free| ==> s.free[i] in s.free;
    DistinctFit(s.free, |s.frames|);
  }

  /** What a prefetch may do to the page table: map absent remote pages in its window, clean. */
  ghost predicate OnlyMapsAbsent(s: Pager, t: Pager, start: nat, count: nat) {
    && |s.pages| == |t.pages|
    && (forall q :: 0 <= q < |s.pages| && t.pages[q] != s.pages[q] ==>
          && start <= q < start + count
          && !s.pages[q].valid && s.pages[q].location == Remote
          && t.pages[q].valid && !t.pages[q].dirty && !t.pages[q].referenced)
  }

  /**
   `dsm_prefetch_pages` is transparent: no view changes, nothing is evicted, the hand stays,
   and only absent remote pages in the window become mapped; a failed batch changes nothing
   but the order of the free stack.
   */
  lemma PrefetchKeeps(s: Pager, start: nat, count: nat, batchOk: bool)
    requires Inv(s, {})
    ensures var t := Prefetch(s, start, count, batchOk);
            && Silent(s, t, {})
            && t.evictions == s.evictions && t.ticks == s.ticks && t.lastPage == s.lastPage && t.hits == s.hits
            && OnlyMapsAbsent(s, t, start, count)
            && (!batchOk ==> t == s.(free := t.free) && multiset(t.free) == multiset(s.free))
  {
    if Picks(s, start, 0, count, Room(s)) == [] {
      assert Prefetch(s, start, count, batchOk) == s;
    } else if batchOk {
      PrefetchFetched(s, start, count);
    } else {
      PrefetchFailed(s, start, count);
    }
  }

  lemma PrefetchFailed(s: Pager, start: nat, count: nat)
    requires Inv(s, {}) && Picks(s, start, 0, count, Room(s)) != []
    ensures var t := Prefetch(s, start, count, false);
            Silent(s, t, {}) && t == s.(free := t.free) && multiset(t.free) == multiset(s.free)
  {
    PrefetchUnfold(s, start, count, false);
    PopThenPush(s, |Picks(s, start, 0, count, Room(s))|);
  }

  lemma PopThenPush(s: Pager, k: nat)
    requires Inv(s, {}) && k <= |s.free|
    ensures var t := s.(free := s.free[..|s.free| - k] + Popped(s.free, k));
            Silent(s, t, {}) && multiset(t.free) == multiset(s.free)
  {
    PopPushSilent(s, k);
    PoppedSame(s.free, k);
  }

  lemma PopPushSilent(s: Pager, k: nat)
    requires Inv(s, {}) && k <= |s.free|
    ensures Silent(s, s.(free := s.free[..|s.free| - k] + Popped(s.free, k)), {})
  {
    var popped := Popped(s.free, k);
    PopAllKeeps(s, k);
    PushAllKeeps(s.(free := s.free[..|s.free| - k]), popped, 0);
    assert popped[0..] == popped;
  }

  lemma PrefetchFetched(s: Pager, start: nat, count: nat)
    requires Inv(s, {}) && Picks(s, start, 0, count, Room(s)) != []
    ensures var t := Prefetch(s, start, count, true);
            && Silent(s, t, {})
            && t.evictions == s.evictions && t.ticks == s.ticks && t.lastPage == s.lastPage && t.hits == s.hits
            && OnlyMapsAbsent(s, t, start, count)
  {
    var picks := Picks(s, start, 0, count, Room(s));
    PicksBounds(s, start, 0, count, Room(s));
    assert s.socket by { assert s.pages[picks[0]].location == Remote; }
    PrefetchUnfold(s, start, count, true);
    PopThenInstall(s, picks);
    InstallAllEffects(s.(free := s.free[..|s.free| - |picks|]), picks, Popped(s.free, |picks|), 0);
    assert picks[0..] == picks;
    forall q | q in picks
      ensures start <= q < start + count && !s.pages[q].valid && s.pages[q].location == Remote
    {
    }
  }

  lemma PopThenInstall(s: Pager, picks: seq<nat>)
    requires Inv(s, {}) && s.socket && |picks| <= |s.free|
    requires forall i :: 0 <= i < |picks| ==> picks[i] < |s.pages| && !s.pages[picks[i]].valid
    requires forall i :: 0 <= i < |picks| ==> s.pages[picks[i]].location == Remote
    requires forall i, k :: 0 <= i < k < |picks| ==> picks[i] != picks[k]
    ensures forall i :: 0 <= i < |picks| ==> Popped(s.free, |picks|)[i] < |s.frames|
    ensures Silent(s, InstallAll(s.(free := s.free[..|s.free| - |picks|]), picks, Popped(s.free, |picks|), 0), {})
  {
    var popped := Popped(s.free, |picks|);
    var held := s.(free := s.free[..|s.free| - |picks|]);
    PopAllKeeps(s, |picks|);
    InstallAllKeeps(held, picks, popped, 0);
    SilentTrans(s, held, InstallAll(held, picks, popped, 0), FrameSet(popped, 0), {});
  }

  predicate Wanted(s: Pager, q: nat)
    requires q < |s.pages|
  {
    !s.pages[q].valid && s.pages[q].location == Remote
  }

  /** How many wanted pages lie from `start` up to q. */
  function WantedBefore(s: Pager, start: nat, q: nat): nat
    requires start <= q <= |s.pages|
    decreases q - start
  {
    if start == q then 0 else (if Wanted(s, start) then 1 else 0) + WantedBefore(s, start + 1, q)
  }

  lemma {:induction false} PicksExactly(s: Pager, start: nat, i: nat, count: nat, room: nat, q: nat)
    requires start + i <= q < start + count && q < |s.pages|
    ensures q in Picks(s, start, i, count, room) <==> Wanted(s, q) && WantedBefore(s, start + i, q) < room
    decreases count - i
  {
    PicksBounds(s, start, i + 1, count, room);
    if room == 0 || q == start + i {
    } else if Wanted(s, start + i) {
      PicksExactly(s, start, i + 1, count, room - 1, q);
    } else {
      PicksExactly(s, start, i + 1, count, room, q);
    }
  }

  /**
   Exactly what a prefetch whose batch succeeds brings in: an absent page of its window is
   cached afterwards if and only if it was fetched before and fewer wanted pages of the
   window precede it than there is room for.
   */
  lemma PrefetchedExactly(s: Pager, start: nat, count: nat, q: nat)
    requires Inv(s, {}) && start <= q < start + count && q < |s.pages| && !s.pages[q].valid
    ensures var t := Prefetch(s, start, count, true);
            && |t.pages| == |s.pages|
            && (t.pages[q].valid <==> s.pages[q].location == Remote && WantedBefore(s, start, q) < Room(s))
  {
    PicksExactly(s, start, 0, count, Room(s), q);
    PickedAreCached(s, start, count, q);
  }

  lemma PickedAreCached(s: Pager, start: nat, count: nat, q: nat)
    requires Inv(s, {}) && q < |s.pages| && !s.pages[q].valid
    ensures var t := Prefetch(s, start, count, true);
            |t.pages| == |s.pages| && (t.pages[q].valid <==> q in Picks(s, start, 0, count, Room(s)))
  {
    var picks := Picks(s, start, 0, count, Room(s));
    PrefetchUnfold(s, start, count, true);
    InstallAllEffects(s.(free := s.free[..|s.free| - |picks|]), picks, Popped(s.free, |picks|), 0);
    assert picks[0..] == picks;
  }

  lemma {:induction false} PoppedSame(free: seq<nat>, k: nat)
    requires k <= |free|
    ensures multiset(free[..|free| - k] + Popped(free, k)) == multiset(free)
  {
    if k == 0 {
      assert free[..|free|] + Popped(free, 0) == free;
    } else {
      PoppedSame(free, k - 1);
      var a, x := free[..|free| - k], free[|free| - k];
      assert free[..|free| - (k - 1)] == a + [x];
      assert Popped(free, k) == Popped(free, k - 1) + [x];
    }
  }

  // ---------- Whole accesses ----------

  /** An access fails: the page is absent, and the victim's writeback or the fetch fails. */
  predicate AccessFails(s: Pager, p: nat, net: Net)
    requires Inv(s, {}) && p < |s.pages|
  {
    && !s.pages[p].valid
    && (|| (s.free == [] && DirtyVictim(s).Some? && net.put.PutFailed?)
        || (s.socket && net.get.GetFailed?))
  }

  /** `dsm_access_page_slow`: the new state and the frame exposed, or None on failure. */
  function AccessSlow(s: Pager, p: nat, write: bool, net: Net): (Pager, Option<nat>)
    requires Inv(s, {}) && p < |s.pages| && !s.pages[p].valid
  {
    ObtainKeeps(s, net.put);
    var (t, f) := Obtain(s, net.put);
    if f.None? then (t, None)
    else
      ObtainLeavesInvalid(s, p, net.put);
      FillKeeps(t, p, f.value, write, net.get);
      var (u, ok) := Fill(t, p, f.value, write, net.get);
      if !ok then (u, None) else (AfterFill(u, p, net.batchOk), f)
  }

  lemma ObtainLeavesInvalid(s: Pager, p: nat, put: PutOutcome)
    requires Inv(s, {}) && p < |s.pages| && !s.pages[p].valid
    ensures Obtain(s, put).0.pages[p] == s.pages[p]
  {
    if |s.free| == 0 {
      EmptyStackIsFull(s);
      PassOverShape(s, PassLength(s, 0));
      var t := PassOver(s, PassLength(s, 0));
      assert t.pages[t.frames[t.hand].page].valid;
    }
  }

  /** `dsm_access_page`, and `dsm_access_page_fast`. */
  function Access(s: Pager, p: nat, write: bool, net: Net): (Pager, Option<nat>)
    requires Inv(s, {}) && p < |s.pages|
  {
    if s.pages[p].valid then (Hit(s, p, write), Some(s.pages[p].frame))
    else AccessSlow(s, p, write, net)
  }
}
