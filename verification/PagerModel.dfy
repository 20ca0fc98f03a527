/**
 The client pager as a state machine over values: page table, frame table, free-frame
 stack, clock hand and counters, beside the remote store that the RPCs talk to.
 What the network does is a parameter of every operation.
 */
module PagerModel {
  import opened Arith
  import opened Base

  const NO_FRAME: nat := UINT32_MAX
  const NO_PAGE: nat := UINT32_MAX
  const PREFETCH_MAX: nat := 8

  datatype Location = Local | Remote

  datatype PageEntry = PageEntry(frame: nat, valid: bool, referenced: bool, dirty: bool, location: Location)

  datatype FrameEntry = FrameEntry(page: nat, occupied: bool)

  /** A writeback is acknowledged, or fails and may or may not have reached the server. */
  datatype PutOutcome = PutAcked | PutFailed(reached: bool)

  /** A fetch succeeds, or fails after leaving arbitrary bytes in the target frame. */
  datatype GetOutcome = GetOk | GetFailed(scribble: Page)

  /** What the network does to the (at most one) writeback, fetch and batch of an operation. */
  datatype Net = Net(put: PutOutcome, get: GetOutcome, batchOk: bool)

  /**
   `free` is the live part of the free-frame stack, top last. `ticks` is a history
   variable the program does not have: how often the clock hand has advanced.
   `server` is the remote store, one page per virtual page.
   */
  datatype Pager = Pager(
    socket: bool,
    memory: seq<Page>,
    pages: seq<PageEntry>,
    frames: seq<FrameEntry>,
    free: seq<nat>,
    hand: nat,
    lastPage: nat,
    prefetchCount: nat,
    hits: nat,
    fetches: nat,
    evictions: nat,
    ticks: nat,
    server: seq<Page>)

  // ---------- Invariants ----------

  ghost predicate Shaped(s: Pager) {
    && 1 <= |s.frames| <= UINT32_MAX
    && |s.pages| <= UINT32_MAX
    && |s.memory| == |s.frames|
    && |s.server| == |s.pages|
    && s.hand == s.ticks % |s.frames|
    && s.lastPage <= UINT32_MAX
    && s.prefetchCount < 256
  }

  ghost predicate PagesMapped(s: Pager) {
    forall p :: 0 <= p < |s.pages| && s.pages[p].valid ==>
      s.pages[p].frame < |s.frames| && s.frames[s.pages[p].frame] == FrameEntry(p, true)
  }

  ghost predicate FramesMapped(s: Pager) {
    forall f :: 0 <= f < |s.frames| && s.frames[f].occupied ==>
      && s.frames[f].page < |s.pages|
      && s.pages[s.frames[f].page].valid
      && s.pages[s.frames[f].page].frame == f
  }

  /** The free stack holds each frame that is neither occupied nor held, once. */
  ghost predicate FreeExact(s: Pager, held: set<nat>) {
    && (forall i, j :: 0 <= i < j < |s.free| ==> s.free[i] != s.free[j])
    && (forall f: nat :: f in s.free <==> f < |s.frames| && !s.frames[f].occupied && f !in held)
    && (forall f :: f in held ==> f < |s.frames| && !s.frames[f].occupied)
  }

  /** Frame bookkeeping while an operation holds the frames `held` off the stack. */
  ghost predicate Book(s: Pager, held: set<nat>) {
    Shaped(s) && PagesMapped(s) && FramesMapped(s) && FreeExact(s, held)
  }

  /**
   In socket mode every cached page is remote, and a clean one equals the server's copy;
   in in-memory mode no page is remote.
   */
  ghost predicate Faithful(s: Pager)
    requires Shaped(s) && PagesMapped(s)
  {
    if s.socket then
      forall p :: 0 <= p < |s.pages| && s.pages[p].valid ==>
        && s.pages[p].location == Remote
        && (!s.pages[p].dirty ==> s.memory[s.pages[p].frame] == s.server[p])
    else
      forall p :: 0 <= p < |s.pages| ==> s.pages[p].location == Local
  }

  /** A page that is not cached carries no dirty mark and no reference bit. */
  ghost predicate AbsentIsClean(s: Pager) {
    forall p :: 0 <= p < |s.pages| && !s.pages[p].valid ==> !s.pages[p].dirty && !s.pages[p].referenced
  }

  /** In socket mode every frame ever taken off the stack was paid for by a fetch or an eviction. */
  ghost predicate Balanced(s: Pager, held: nat) {
    s.socket ==> s.fetches + |s.free| + held == s.evictions + |s.frames|
  }

  ghost predicate Inv(s: Pager, held: set<nat>) {
    Book(s, held) && Faithful(s) && AbsentIsClean(s) && Balanced(s, |held|)
  }

  /** What the client sees at page p: the cached bytes if there are any, else the server's. */
  function PageView(s: Pager, p: nat): Page
    requires Shaped(s) && PagesMapped(s) && p < |s.pages|
  {
    if s.pages[p].valid then s.memory[s.pages[p].frame] else s.server[p]
  }

  function View(s: Pager): (v: seq<Page>)
    requires Shaped(s) && PagesMapped(s)
    ensures |v| == |s.pages|
  {
    seq(|s.pages|, p requires 0 <= p < |s.pages| => PageView(s, p))
  }

  /** The parts of a context that no operation changes. */
  ghost predicate SameConfig(s: Pager, t: Pager) {
    && s.socket == t.socket
    && |s.pages| == |t.pages|
    && |s.frames| == |t.frames|
    && s.prefetchCount == t.prefetchCount
  }

  // ---------- Creation ----------

  function Create(numPages: nat, numVirtual: nat, socket: bool, memory: seq<Page>, server: seq<Page>): Pager
    requires 1 <= numPages <= UINT32_MAX && numVirtual <= UINT32_MAX
    requires |memory| == numPages && |server| == numVirtual
  {
    Pager(
      socket, memory,
      seq(numVirtual, _ => PageEntry(0, false, false, false, Local)),
      seq(numPages, _ => FrameEntry(0, false)),
      seq(numPages, i => numPages - 1 - i),
      0, NO_PAGE, 4, 0, 0, 0, 0, server)
  }

  // ---------- Clock eviction ----------

  /** How far the hand must advance from `hand` to reach frame f on a clock of n frames. */
  function Ahead(hand: nat, f: nat, n: nat): nat
    requires hand < n && f < n
  {
    if hand <= f then f - hand else f + n - hand
  }

  /** The frame k places on from `hand`. */
  function ClockAt(hand: nat, k: nat, n: nat): (f: nat)
    requires hand < n && k <= n
    ensures f == (if hand + k < n then hand + k else hand + k - n)
  {
    if hand + k < n then
      DivModUnique(hand + k, n, 0, hand + k);
      (hand + k) % n
    else
      DivModUnique(hand + k, n, 1, hand + k - n);
      (hand + k) % n
  }

  predicate Referenced(s: Pager, f: nat)
    requires FramesMapped(s) && f < |s.frames| && s.frames[f].occupied
  {
    s.pages[s.frames[f].page].referenced
  }

  ghost predicate Full(s: Pager) {
    forall f :: 0 <= f < |s.frames| ==> s.frames[f].occupied
  }

  /** How many frames the hand passes over before it stops, having passed k already. */
  function PassLength(s: Pager, k: nat): (d: nat)
    requires Shaped(s) && FramesMapped(s) && Full(s) && k <= |s.frames|
    ensures k <= d <= |s.frames|
    ensures forall i :: k <= i < d ==> Referenced(s, ClockAt(s.hand, i, |s.frames|))
    ensures d < |s.frames| ==> !Referenced(s, ClockAt(s.hand, d, |s.frames|))
    decreases |s.frames| - k
  {
    if k == |s.frames| || !Referenced(s, ClockAt(s.hand, k, |s.frames|)) then k
    else PassLength(s, k + 1)
  }

  /** The hand passes over k frames: exactly their pages lose the reference bit. */
  function PassOver(s: Pager, k: nat): Pager
    requires Shaped(s) && PagesMapped(s) && k <= |s.frames|
  {
    s.(pages := seq(|s.pages|, p requires 0 <= p < |s.pages| =>
                      if s.pages[p].valid && Ahead(s.hand, s.pages[p].frame, |s.frames|) < k
                      then s.pages[p].(referenced := false)
                      else s.pages[p]),
       hand := ClockAt(s.hand, k, |s.frames|),
       ticks := s.ticks + k)
  }

  /** Is the page under the hand one that must be written back before it goes? */
  predicate NeedsWriteback(s: Pager)
    requires Shaped(s) && FramesMapped(s) && Full(s)
  {
    var e := s.pages[s.frames[s.hand].page];
    e.dirty && e.location == Remote
  }

  /** The writeback of the page under the hand, as far as it reached the server. */
  function WriteBack(s: Pager, put: PutOutcome): Pager
    requires Shaped(s) && FramesMapped(s) && Full(s)
  {
    if put == PutFailed(false) then s
    else s.(server := s.server[s.frames[s.hand].page := s.memory[s.hand]])
  }

  /** Unmap the page under the hand and move on; the freed frame is held by the caller. */
  function Unmap(s: Pager): Pager
    requires Shaped(s) && FramesMapped(s) && Full(s)
  {
    var p := s.frames[s.hand].page;
    s.(pages := s.pages[p := s.pages[p].(valid := false, dirty := false)],
       frames := s.frames[s.hand := s.frames[s.hand].(occupied := false)],
       hand := ClockAt(s.hand, 1, |s.frames|),
       ticks := s.ticks + 1,
       evictions := s.evictions + 1)
  }

  function EvictUnderHand(s: Pager, put: PutOutcome): (Pager, Option<nat>)
    requires Shaped(s) && FramesMapped(s) && Full(s)
  {
    if !NeedsWriteback(s) then (Unmap(s), Some(s.hand))
    else if put.PutFailed? then (WriteBack(s, put), None)
    else (Unmap(WriteBack(s, put)), Some(s.hand))
  }

  /** `evict_page`: the new state and the freed frame, or None when the writeback failed. */
  function Evict(s: Pager, put: PutOutcome): (Pager, Option<nat>)
    requires Book(s, {}) && Full(s)
  {
    var t := PassOver(s, PassLength(s, 0));
    PassOverShape(s, PassLength(s, 0));
    EvictUnderHand(t, put)
  }

  lemma PassOverShape(s: Pager, k: nat)
    requires Shaped(s) && PagesMapped(s) && FramesMapped(s) && k <= |s.frames|
    ensures var t := PassOver(s, k); Shaped(t) && PagesMapped(t) && FramesMapped(t)
  {
    ModAdd(s.ticks, k, |s.frames|);
  }

  // ---------- Access and prefetch ----------

  /** A free frame off the stack, else an evicted one. */
  function Obtain(s: Pager, put: PutOutcome): (Pager, Option<nat>)
    requires Book(s, {})
  {
    if |s.free| > 0 then (s.(free := s.free[..|s.free| - 1]), Some(s.free[|s.free| - 1]))
    else (EmptyStackIsFull(s); Evict(s, put))
  }

  /** The page and bytes an eviction would have to write back first, if any. */
  function DirtyVictim(s: Pager): Option<(nat, Page)>
    requires Book(s, {}) && s.free == []
  {
    EmptyStackIsFull(s);
    PassOverShape(s, PassLength(s, 0));
    var t := PassOver(s, PassLength(s, 0));
    if NeedsWriteback(t) then Some((t.frames[t.hand].page, t.memory[t.hand])) else None
  }

  lemma EmptyStackIsFull(s: Pager)
    requires Book(s, {}) && s.free == []
    ensures Full(s)
  {
    forall f | 0 <= f < |s.frames|
      ensures s.frames[f].occupied
    {
      assert f !in s.free;
    }
  }

  /** Put page p into frame f with page-table entry e and bytes `data`. */
  function Install(s: Pager, p: nat, f: nat, e: PageEntry, data: Page): Pager
    requires p < |s.pages| && f < |s.frames| == |s.memory|
  {
    s.(memory := s.memory[f := data],
       pages := s.pages[p := e],
       frames := s.frames[f := FrameEntry(p, true)])
  }

  /** Fetch page p into the held frame f; a failed fetch gives the frame back. */
  function Fill(s: Pager, p: nat, f: nat, write: bool, get: GetOutcome): (Pager, bool)
    requires Shaped(s) && p < |s.pages| && f < |s.frames|
  {
    if !s.socket then
      (Install(s, p, f, PageEntry(f, true, true, write, Local), s.memory[f]), true)
    else if get.GetFailed? then
      (s.(memory := s.memory[f := get.scribble], free := s.free + [f]), false)
    else
      (Install(s, p, f, PageEntry(f, true, true, write, Remote), s.server[p]).(fetches := s.fetches + 1), true)
  }

  /** The pages a prefetch asks for, from the i-th candidate on, with room for `room` more. */
  function Picks(s: Pager, start: nat, i: nat, count: nat, room: nat): seq<nat>
    decreases count - i
  {
    if i >= count || room == 0 || start + i >= |s.pages| then []
    else if s.pages[start + i].valid || s.pages[start + i].location != Remote then
      Picks(s, start, i + 1, count, room)
    else
      [start + i] + Picks(s, start, i + 1, count, room - 1)
  }

  function Room(s: Pager): nat {
    if |s.free| < PREFETCH_MAX then |s.free| else PREFETCH_MAX
  }

  /** The top k frames of the stack, in the order they are popped. */
  function Popped(free: seq<nat>, k: nat): seq<nat>
    requires k <= |free|
  {
    seq(k, i requires 0 <= i < k => free[|free| - 1 - i])
  }

  /** Map a prefetched page: clean, and without a reference bit. */
  function InstallClean(s: Pager, p: nat, f: nat): Pager
    requires p < |s.pages| == |s.server| && f < |s.frames| == |s.memory|
  {
    var e := s.pages[p].(frame := f, valid := true, referenced := false, dirty := false);
    Install(s, p, f, e, s.server[p]).(fetches := s.fetches + 1)
  }

  /** Map picks[j..] into frames[j..]. */
  function InstallAll(s: Pager, picks: seq<nat>, frames: seq<nat>, j: nat): Pager
    requires |picks| == |frames| && j <= |picks|
    requires |s.frames| == |s.memory| && |s.server| == |s.pages|
    requires forall i :: 0 <= i < |picks| ==> picks[i] < |s.pages| && frames[i] < |s.frames|
    decreases |picks| - j
  {
    if j == |picks| then s
    else
      InstallAll(InstallClean(s, picks[j], frames[j]), picks, frames, j + 1)
  }

  lemma {:induction false} PicksBounds(s: Pager, start: nat, i: nat, count: nat, room: nat)
    ensures var ps := Picks(s, start, i, count, room);
            && |ps| <= room
            && (forall j :: 0 <= j < |ps| ==> start + i <= ps[j] < |s.pages| && ps[j] < start + count)
            && (forall j :: 0 <= j < |ps| ==> !s.pages[ps[j]].valid && s.pages[ps[j]].location == Remote)
            && (forall j, k :: 0 <= j < k < |ps| ==> ps[j] < ps[k])
    decreases count - i
  {
    if i >= count || room == 0 || start + i >= |s.pages| {
    } else if s.pages[start + i].valid || s.pages[start + i].location != Remote {
      PicksBounds(s, start, i + 1, count, room);
    } else {
      PicksBounds(s, start, i + 1, count, room - 1);
    }
  }

  /** `dsm_prefetch_pages`. A failed batch pushes the popped frames back, in popping order. */
  function Prefetch(s: Pager, start: nat, count: nat, batchOk: bool): Pager
    requires Book(s, {})
  {
    var picks := Picks(s, start, 0, count, Room(s));
    PicksBounds(s, start, 0, count, Room(s));
    var rest := s.free[..|s.free| - |picks|];
    var popped := Popped(s.free, |picks|);
    if |picks| == 0 then s
    else if !batchOk then s.(free := rest + popped)
    else
      assert forall i :: 0 <= i < |picks| ==> popped[i] in s.free;
      InstallAll(s.(free := rest), picks, popped, 0)
  }

  /** Remember page p, and prefetch after it if it follows the page remembered before. */
  function AfterFill(s: Pager, p: nat, batchOk: bool): Pager
    requires Book(s, {})
  {
    var t := if p == (s.lastPage + 1) % TWO_32 then Prefetch(s, p + 1, s.prefetchCount, batchOk) else s;
    t.(lastPage := p)
  }

  function Hit(s: Pager, p: nat, write: bool): Pager
    requires p < |s.pages|
  {
    var e := s.pages[p];
    s.(hits := s.hits + 1, pages := s.pages[p := e.(referenced := true, dirty := e.dirty || write)])
  }
}
