/**
 The pager as the program runs it: tables and stack are arrays updated in place, the
 clock and the prefetcher are loops. Every method is proved against the corresponding
 function of the value model.
 */
module PagerContext {
  import opened Base
  import opened PagerModel
  import opened PagerSteps
  import opened PagerRuns

  /** One more frame passed over: its page loses the bit and the hand moves on. */
  lemma PassOverStep(s: Pager, k: nat)
    requires Inv(s, {}) && Full(s) && k < |s.frames|
    ensures var t := PassOver(s, k);
            && Inv(t, {}) && t.frames == s.frames
            && var p := t.frames[t.hand].page;
               && p < |t.pages|
               && PassOver(s, k + 1) == t.(pages := t.pages[p := t.pages[p].(referenced := false)],
                                           hand := (t.hand + 1) % |t.frames|,
                                           ticks := t.ticks + 1)
  {
    PassOverKeeps(s, k);
    var t := PassOver(s, k);
    var p := t.frames[t.hand].page;
    assert s.pages[p].frame == t.hand && Ahead(s.hand, t.hand, |s.frames|) == k;
    assert ClockAt(t.hand, 1, |t.frames|) == ClockAt(s.hand, k + 1, |s.frames|);
    var u := t.pages[p := t.pages[p].(referenced := false)];
    forall q | 0 <= q < |s.pages|
      ensures u[q] == PassOver(s, k + 1).pages[q]
    {
      if s.pages[q].valid && q != p {
        assert s.pages[q].frame != t.hand;
      }
    }
    assert u == PassOver(s, k + 1).pages;
  }

  /** Up to where the hand will stop, the frame under it is still referenced. */
  lemma StillReferenced(s: Pager, k: nat)
    requires Inv(s, {}) && Full(s) && k <= PassLength(s, 0)
    ensures var t := PassOver(s, k);
            && Inv(t, {}) && t.frames == s.frames
            && (Referenced(t, t.hand) <==> k < PassLength(s, 0))
  {
    PassOverKeeps(s, k);
    var t := PassOver(s, k);
    var p := t.frames[t.hand].page;
    if k == PassLength(s, 0) {
      VictimUnreferenced(s);
    } else {
      assert Referenced(s, ClockAt(s.hand, k, |s.frames|));
      assert s.pages[p].frame == t.hand && Ahead(s.hand, t.hand, |s.frames|) == k;
    }
  }

  class Context {
    const memory: array<Page>
    const pageTable: array<PageEntry>
    const frameTable: array<FrameEntry>
    const freeList: array<nat>
    var socket: bool
    var freeTop: nat
    var hand: nat
    var lastPage: nat
    var prefetchCount: nat
    var hits: nat
    var fetches: nat
    var evictions: nat
    ghost var ticks: nat
    /** The remote store at the other end of the socket. */
    var server: seq<Page>

    ghost predicate Wf()
      reads this
    {
      && freeTop <= freeList.Length == frameTable.Length
      && memory as object != pageTable && memory as object != frameTable && memory as object != freeList
      && pageTable as object != frameTable && pageTable as object != freeList && frameTable as object != freeList
    }

    ghost function Repr(): set<object> {
      {this, memory, pageTable, frameTable, freeList}
    }

    ghost function Model(): Pager
      requires Wf()
      reads this, memory, pageTable, frameTable, freeList
    {
      Pager(socket, memory[..], pageTable[..], frameTable[..], freeList[..freeTop], hand, lastPage,
            prefetchCount, hits, fetches, evictions, ticks, server)
    }

    ghost predicate Valid(held: set<nat>)
      reads this, memory, pageTable, frameTable, freeList
    {
      Wf() && Inv(Model(), held)
    }

    /** `dsm_create_context`; the context starts in in-memory mode. */
    constructor (numPages: nat, numVirtual: nat, remote: seq<Page>)
      requires 1 <= numPages <= UINT32_MAX && numVirtual <= UINT32_MAX && |remote| == numVirtual
      ensures Valid({}) && fresh(Repr())
      ensures Model() == Create(numPages, numVirtual, false, seq(numPages, _ => ZERO_PAGE), remote)
    {
      memory := new Page[numPages](_ => ZERO_PAGE);
      pageTable := new PageEntry[numVirtual](_ => PageEntry(0, false, false, false, Local));
      frameTable := new FrameEntry[numPages](_ => FrameEntry(0, false));
      freeList := new nat[numPages];
      socket := false;
      freeTop := 0;
      hand := 0;
      lastPage := NO_PAGE;
      prefetchCount := 4;
      hits, fetches, evictions, ticks := 0, 0, 0, 0;
      server := remote;
      new;
      for i := 0 to numPages
        invariant forall j :: 0 <= j < i ==> freeList[j] == numPages - 1 - j
        invariant memory[..] == seq(numPages, _ => ZERO_PAGE)
        invariant forall j :: 0 <= j < numVirtual ==> pageTable[j] == PageEntry(0, false, false, false, Local)
        invariant forall j :: 0 <= j < numPages ==> frameTable[j] == FrameEntry(0, false)
        modifies freeList
      {
        freeList[i] := numPages - 1 - i;
      }
      freeTop := numPages;
      CreateEstablishes(numPages, numVirtual, false, memory[..], remote);
      ghost var s := Create(numPages, numVirtual, false, memory[..], remote);
      assert pageTable[..] == s.pages && frameTable[..] == s.frames && freeList[..freeTop] == s.free;
    }

    /** `dsm_context_set_socket`. */
    method SetSocket(fd: int)
      requires Wf()
      modifies this`socket
      ensures Wf() && Model() == old(Model()).(socket := fd >= 0)
    {
      socket := fd >= 0;
    }

    /** `get_free_frame`, as it moves the top of the stack. */
    method Pop() returns (f: nat)
      requires freeTop <= freeList.Length
      modifies this`freeTop
      ensures old(freeTop) == 0 ==> f == NO_FRAME && freeTop == 0
      ensures old(freeTop) > 0 ==> freeTop == old(freeTop) - 1 && f == freeList[freeTop]
    {
      if freeTop > 0 {
        freeTop := freeTop - 1;
        return freeList[freeTop];
      }
      return NO_FRAME;
    }

    /** `get_free_frame`. */
    method TakeFree() returns (f: nat)
      requires Wf()
      modifies this`freeTop
      ensures Wf()
      ensures old(freeTop) == 0 ==> f == NO_FRAME && Model() == old(Model())
      ensures old(freeTop) > 0 ==>
                var free := old(Model()).free;
                f == free[|free| - 1] && Model() == old(Model()).(free := free[..|free| - 1])
    {
      f := Pop();
      assert freeList[..freeTop] == old(freeList[..freeTop])[..freeTop];
    }

    /** `push_free_frame`. */
    method GiveFree(f: nat)
      requires Wf() && freeTop < freeList.Length
      modifies this`freeTop, freeList
      ensures Wf() && Model() == old(Model()).(free := old(Model()).free + [f])
    {
      freeList[freeTop] := f;
      freeTop := freeTop + 1;
      assert freeList[..freeTop] == old(freeList[..freeTop]) + [f];
    }

    /** `dsm_rpc_put` as the network lets it happen. */
    method RpcPut(p: nat, data: Page, put: PutOutcome) returns (rc: int)
      requires p < |server|
      modifies this`server
      ensures rc == (if put.PutAcked? then 0 else -1)
      ensures server == if put == PutFailed(false) then old(server) else old(server)[p := data]
    {
      if put != PutFailed(false) {
        server := server[p := data];
      }
      rc := if put.PutAcked? then 0 else -1;
    }

    method ClearReference(p: nat)
      requires Wf() && p < pageTable.Length
      modifies pageTable
      ensures Model() == old(Model()).(pages := old(pageTable[..])[p := old(pageTable[p]).(referenced := false)])
    {
      pageTable[p] := pageTable[p].(referenced := false);
    }

    method AdvanceHand()
      requires Wf() && frameTable.Length > 0
      modifies this`hand, this`ticks
      ensures Wf()
      ensures Model() == old(Model()).(hand := (old(hand) + 1) % frameTable.Length, ticks := old(ticks) + 1)
    {
      hand := (hand + 1) % frameTable.Length;
      ticks := ticks + 1;
    }

    /** One turn of the clock loop: pass over the frame under the hand, or evict it and stop. */
    method ClockTurn(put: PutOutcome, ghost s: Pager, ghost k: nat) returns (stop: bool, f: nat)
      requires Wf() && freeTop == 0 && Inv(s, {}) && Full(s)
      requires k <= PassLength(s, 0) && Model() == PassOver(s, k)
      modifies Repr()
      ensures Wf() && stop == (k == PassLength(s, 0))
      ensures !stop ==> freeTop == 0 && Model() == PassOver(s, k + 1)
      ensures stop ==> var (t, r) := Evict(s, put);
                       Model() == t && f == (if r.Some? then r.value else NO_FRAME)
    {
      StillReferenced(s, k);
      assert frameTable[hand] == Model().frames[hand];
      if frameTable[hand].occupied {
        var p := frameTable[hand].page;
        assert pageTable[p] == Model().pages[p];
        if !pageTable[p].referenced {
          f := TakeVictim(put);
          return true, f;
        }
        PassOverStep(s, k);
        ClearReference(p);
      }
      AdvanceHand();
      return false, NO_FRAME;
    }

    /** `evict_page`: the clock loop. It is entered only with an empty free stack. */
    method EvictPage(put: PutOutcome) returns (f: nat)
      requires Valid({}) && freeTop == 0
      modifies Repr()
      ensures Wf() && Full(old(Model()))
      ensures var (t, r) := Evict(old(Model()), put);
              Model() == t && f == (if r.Some? then r.value else NO_FRAME)
    {
      ghost var s := Model();
      EmptyStackIsFull(s);
      ghost var k := 0;
      assert PassOver(s, 0).pages == s.pages;
      while true
        invariant Wf() && freeTop == 0
        invariant k <= PassLength(s, 0) && Model() == PassOver(s, k)
        decreases PassLength(s, 0) - k
      {
        var stop;
        stop, f := ClockTurn(put, s, k);
        if stop {
          return;
        }
        k := k + 1;
      }
    }

    /**
     The end of an eviction: write the page under the hand back, unmap it, hand its frame out.
     Only a dirty page that came from the server is sent there.
     */
    method TakeVictim(put: PutOutcome) returns (f: nat)
      requires Valid({}) && freeTop == 0 && Full(Model())
      modifies Repr()
      ensures Wf()
      ensures var (t, r) := EvictUnderHand(old(Model()), put);
              Model() == t && f == (if r.Some? then r.value else NO_FRAME)
      ensures var e := old(Model()).pages[old(Model()).frames[old(hand)].page];
              !(e.dirty && e.location == Remote) ==> f == old(hand) && server == old(server)
    {
      ghost var u := Model();
      var victim := hand;
      assert frameTable[victim] == u.frames[victim];
      var p := frameTable[victim].page;
      assert pageTable[p] == u.pages[p];
      if pageTable[p].dirty && pageTable[p].location == Remote {
        var rc := RpcPut(p, memory[victim], put);
        if rc < 0 {
          return NO_FRAME;
        }
      }
      f := Release();
    }

    method Release() returns (f: nat)
      requires Wf() && freeTop == 0 && Shaped(Model()) && FramesMapped(Model()) && Full(Model())
      modifies Repr()
      ensures Wf() && f == old(hand) && Model() == Unmap(old(Model()))
    {
      ghost var v := Model();
      var victim := hand;
      assert frameTable[victim] == v.frames[victim];
      var p := frameTable[victim].page;
      assert pageTable[p] == v.pages[p];
      pageTable[p] := pageTable[p].(valid := false, dirty := false);
      frameTable[victim] := frameTable[victim].(occupied := false);
      AdvanceHand();
      evictions := evictions + 1;
      assert ClockAt(victim, 1, frameTable.Length) == hand;
      assert Model() == Unmap(v);
      GiveFree(victim);
      f := TakeFree();
      assert Model().free == [];
    }

    /** Enter page p in both tables as the occupant of frame f. */
    method EnterPage(p: nat, f: nat, e: PageEntry)
      requires Wf() && p < pageTable.Length && f < frameTable.Length
      modifies pageTable, frameTable
      ensures Wf()
      ensures Model() == old(Model()).(pages := old(pageTable[..])[p := e],
                                       frames := old(frameTable[..])[f := FrameEntry(p, true)])
    {
      pageTable[p] := e;
      frameTable[f] := FrameEntry(p, true);
    }

    /** `dsm_rpc_get_batch` as the network lets it happen. */
    method RpcGetBatch(ids: seq<nat>, ok: bool) returns (rc: int, bufs: seq<Page>)
      requires forall i :: 0 <= i < |ids| ==> ids[i] < |server|
      ensures rc == (if ok then 0 else -1)
      ensures ok ==> |bufs| == |ids| && forall i :: 0 <= i < |ids| ==> bufs[i] == server[ids[i]]
    {
      if !ok {
        return -1, [];
      }
      bufs := [];
      for i := 0 to |ids|
        invariant |bufs| == i && forall j :: 0 <= j < i ==> bufs[j] == server[ids[j]]
      {
        bufs := bufs + [server[ids[i]]];
      }
      rc := 0;
    }

    /** Addition of page numbers, in 32 bits. */
    static method Add32(a: nat, b: nat) returns (c: nat)
      ensures c < TWO_32 && (a + b < TWO_32 ==> c == a + b)
    {
      c := (a + b) % TWO_32;
    }

    /** The first loop of `dsm_prefetch_pages`: choose pages and pop a frame for each. */
    method PickPages(start: nat, count: nat) returns (ids: seq<nat>, frames: seq<nat>)
      requires Wf() && Shaped(Model()) && NO_FRAME !in Model().free && start <= UINT32_MAX && count < 256
      modifies this`freeTop
      ensures Wf() && ids == Picks(old(Model()), start, 0, count, Room(old(Model())))
      ensures |ids| <= |old(Model()).free| && frames == Popped(old(Model()).free, |ids|)
      ensures Model() == old(Model()).(free := old(Model()).free[..|old(Model()).free| - |ids|])
    {
      ghost var s := Model();
      ids, frames := [], [];
      var i := 0;
      while i < count && |ids| < PREFETCH_MAX
        invariant Wf() && freeTop == |s.free| - |ids|
        invariant i <= count && (i > 0 ==> start + i - 1 < |s.pages|)
        invariant Picking(s, start, i, count, ids, frames)
      {
        var page := Add32(start, i);
        if page >= pageTable.Length {
          break;
        }
        var entry := pageTable[page];
        if entry.valid || entry.location != Remote {
          PickSkip(s, start, i, count, ids, frames);
        } else {
          var frame := Pop();
          if frame == NO_FRAME {
            break;
          }
          PickTake(s, start, i, count, ids, frames);
          ids, frames := ids + [page], frames + [frame];
        }
        i := i + 1;
      }
      PickDone(s, start, i, count, ids, frames);
      assert freeList[..freeTop] == s.free[..|s.free| - |ids|];
    }

    /** `dsm_prefetch_pages`. */
    method PrefetchPages(start: nat, count: nat, batchOk: bool)
      requires Valid({}) && start <= UINT32_MAX && count < 256
      modifies Repr()
      ensures Wf() && Model() == Prefetch(old(Model()), start, count, batchOk)
    {
      ghost var s := Model();
      PrefetchUnfold(s, start, count, batchOk);
      NotASentinel(s);
      var ids, frames := PickPages(start, count);
      if |ids| == 0 {
        assert Model() == s;
        return;
      }
      var rc, bufs := RpcGetBatch(ids, batchOk);
      if rc < 0 {
        PushBack(frames);
        return;
      }
      MapAll(ids, frames, bufs);
    }

    method PushBack(frames: seq<nat>)
      requires Wf() && freeTop + |frames| <= freeList.Length
      modifies this`freeTop, freeList
      ensures Wf() && Model() == old(Model()).(free := old(Model()).free + frames)
    {
      ghost var free := Model().free;
      for i := 0 to |frames|
        invariant Wf() && freeTop == old(freeTop) + i
        invariant Model() == old(Model()).(free := free + frames[..i])
      {
        GiveFree(frames[i]);
        assert free + frames[..i] + [frames[i]] == free + frames[..i + 1];
      }
    }

    method MapAll(ids: seq<nat>, frames: seq<nat>, bufs: seq<Page>)
      requires Wf() && Shaped(Model()) && |ids| == |frames| == |bufs|
      requires forall i :: 0 <= i < |ids| ==> ids[i] < |server| && frames[i] < frameTable.Length
      requires forall i :: 0 <= i < |ids| ==> bufs[i] == server[ids[i]]
      modifies memory, pageTable, frameTable, this`fetches
      ensures Wf() && Model() == InstallAll(old(Model()), ids, frames, 0)
    {
      for i := 0 to |ids|
        invariant Wf() && Shaped(Model())
        invariant InstallAll(Model(), ids, frames, i) == InstallAll(old(Model()), ids, frames, 0)
      {
        ghost var t := Model();
        var p := ids[i];
        assert pageTable[p] == t.pages[p];
        memory[frames[i]] := bufs[i];
        EnterPage(p, frames[i], pageTable[p].(frame := frames[i], valid := true, referenced := false, dirty := false));
        fetches := fetches + 1;
        assert Model() == InstallClean(t, p, frames[i]);
      }
    }

    /** `dsm_rpc_get` as the network lets it happen: a failure may leave anything in the frame. */
    method RpcGet(p: nat, f: nat, get: GetOutcome) returns (rc: int)
      requires Wf() && p < |server| && f < memory.Length
      modifies memory
      ensures rc == (if get.GetOk? then 0 else -1)
      ensures Model() == old(Model()).(memory := old(memory[..])[f := if get.GetOk? then server[p] else get.scribble])
    {
      memory[f] := if get.GetOk? then server[p] else get.scribble;
      rc := if get.GetOk? then 0 else -1;
    }

    /** `dsm_access_page_slow`; None is its null pointer. */
    method AccessPageSlow(p: nat, write: bool, net: Net) returns (r: Option<nat>)
      requires Valid({}) && p < pageTable.Length && !pageTable[p].valid
      modifies Repr()
      ensures Valid({}) && (Model(), r) == AccessSlow(old(Model()), p, write, net)
    {
      ghost var s := Model();
      assert s.pages[p] == pageTable[p];
      AccessSlowKeeps(s, p, write, net);
      ObtainKeeps(s, net.put);
      ObtainLeavesInvalid(s, p, net.put);
      r := ObtainFrame(net.put);
      if r.None? {
        return;
      }
      FillKeeps(Model(), p, r.value, write, net.get);
      PushKeeps(Model(), {r.value}, r.value);
      var ok := FillFrame(p, r.value, write, net.get);
      if !ok {
        return None;
      }
      Remember(p, net.batchOk);
    }

    /** Note page p as the last one faulted in, prefetching after it if the access is sequential. */
    method Remember(p: nat, batchOk: bool)
      requires Valid({}) && p < pageTable.Length
      modifies Repr()
      ensures Wf() && Model() == AfterFill(old(Model()), p, batchOk)
    {
      if p == (lastPage + 1) % TWO_32 {
        PrefetchPages(p + 1, prefetchCount, batchOk);
      }
      lastPage := p;
    }

    /** A frame off the stack, else an evicted one. */
    method ObtainFrame(put: PutOutcome) returns (r: Option<nat>)
      requires Valid({})
      modifies Repr()
      ensures Wf() && (Model(), r) == Obtain(old(Model()), put)
    {
      ghost var s := Model();
      ObtainKeeps(s, put);
      var f := TakeFree();
      if f == NO_FRAME {
        NotASentinel(s);
        f := EvictPage(put);
        if f == NO_FRAME {
          return None;
        }
      }
      r := Some(f);
    }

    /** Fetch page p into frame f and map it, or give the frame back. */
    method FillFrame(p: nat, f: nat, write: bool, get: GetOutcome) returns (ok: bool)
      requires Wf() && Shaped(Model()) && p < pageTable.Length && f < frameTable.Length
      requires freeTop < freeList.Length
      modifies Repr()
      ensures Wf() && (Model(), ok) == Fill(old(Model()), p, f, write, get)
    {
      var shouldFetch := socket;
      if shouldFetch {
        var rc := RpcGet(p, f, get);
        if rc < 0 {
          GiveFree(f);
          return false;
        }
        fetches := fetches + 1;
      }
      EnterPage(p, f, PageEntry(f, true, true, write, if shouldFetch then Remote else Local));
      assert memory[..] == old(memory[..])[f := memory[f]];
      ok := true;
    }

    /** `dsm_access_page`. */
    method AccessPage(p: nat, write: bool, net: Net) returns (r: Option<nat>)
      requires Valid({}) && p < pageTable.Length
      modifies Repr()
      ensures Valid({}) && (Model(), r) == Access(old(Model()), p, write, net)
    {
      ghost var s := Model();
      var entry := pageTable[p];
      assert entry == s.pages[p];
      if entry.valid {
        HitKeeps(s, p, write);
        hits := hits + 1;
        pageTable[p] := entry.(referenced := true, dirty := entry.dirty || write);
        assert Model() == Hit(s, p, write);
        return Some(entry.frame);
      }
      r := AccessPageSlow(p, write, net);
    }

    /** The client stores `bytes` at `offset` of the frame it was handed. */
    method StoreBytes(f: nat, offset: nat, bytes: Bytes)
      requires Wf() && f < memory.Length && offset + |bytes| <= PAGE_SIZE
      modifies memory
      ensures Wf() && Model() == old(Model()).(memory := old(memory[..])[f := Splice(old(memory[f]), offset, bytes)])
    {
      memory[f] := Splice(memory[f], offset, bytes);
    }
  }

  /** No frame on the stack is the no-frame sentinel. */
  lemma NotASentinel(s: Pager)
    requires Inv(s, {})
    ensures NO_FRAME !in s.free
  {
  }

  /** The first i candidates of a prefetch have yielded `ids`, with `frames` popped for them. */
  ghost predicate Picking(s: Pager, start: nat, i: nat, count: nat, ids: seq<nat>, frames: seq<nat>) {
    && |ids| <= Room(s)
    && frames == Popped(s.free, |ids|)
    && ids + Picks(s, start, i, count, Room(s) - |ids|) == Picks(s, start, 0, count, Room(s))
  }

  lemma PickSkip(s: Pager, start: nat, i: nat, count: nat, ids: seq<nat>, frames: seq<nat>)
    requires Picking(s, start, i, count, ids, frames)
    requires i < count && start + i < |s.pages| && !Wanted(s, start + i)
    ensures Picking(s, start, i + 1, count, ids, frames)
  {
    if |ids| == Room(s) {
      assert Picks(s, start, i, count, 0) == Picks(s, start, i + 1, count, 0) == [];
    }
  }

  lemma PickTake(s: Pager, start: nat, i: nat, count: nat, ids: seq<nat>, frames: seq<nat>)
    requires Picking(s, start, i, count, ids, frames)
    requires i < count && start + i < |s.pages| && Wanted(s, start + i) && |ids| < Room(s)
    ensures Picking(s, start, i + 1, count, ids + [start + i], frames + [s.free[|s.free| - |ids| - 1]])
  {
    var rest := Picks(s, start, i + 1, count, Room(s) - |ids| - 1);
    assert ids + ([start + i] + rest) == (ids + [start + i]) + rest;
    assert Popped(s.free, |ids| + 1) == frames + [s.free[|s.free| - |ids| - 1]];
  }

  lemma PickDone(s: Pager, start: nat, i: nat, count: nat, ids: seq<nat>, frames: seq<nat>)
    requires Picking(s, start, i, count, ids, frames)
    requires i >= count || start + i >= |s.pages| || |ids| == Room(s)
    ensures ids == Picks(s, start, 0, count, Room(s)) && frames == Popped(s.free, |ids|)
  {
    assert ids + [] == ids;
  }
}
