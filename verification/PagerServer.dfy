/**
 What an operation of the pager does to the remote store, and how little of the store it
 looks at: the victim does not depend on it, and a fetch sees only pages that are absent.
 */
module PagerServer {
  import opened Base
  import opened PagerModel
  import opened PagerSteps
  import opened PagerRuns

  // ---------- The one page an operation may write back ----------

  /** The page and bytes an operation sends to the server, if it evicts a dirty page. */
  ghost function WritesBack(s: Pager, op: Op): Option<(nat, Page)>
    requires Inv(s, {}) && OpOk(s, op)
  {
    if op.Touch? && !s.pages[op.p].valid && s.free == [] then DirtyVictim(s) else None
  }

  /** The remote store after an operation: changed by its writeback, as far as that got, or not at all. */
  lemma ServerAfter(s: Pager, op: Op)
    requires Inv(s, {}) && OpOk(s, op)
    ensures match WritesBack(s, op)
            case None => Step(s, op).0.server == s.server
            case Some((v, data)) =>
              && v < |s.server|
              && Step(s, op).0.server == if op.net.put == PutFailed(false) then s.server else s.server[v := data]
  {
    match op
    case Touch(p, write, net) =>
      if !s.pages[p].valid {
        ObtainServer(s, op);
        MissServer(s, p, write, net);
      }
    case Store(p, data) =>
    case Fetch(start, count, batchOk) => PrefetchServer(s, start, count, batchOk);
  }

  /** Behind the eviction, a miss leaves the remote store alone. */
  lemma MissServer(s: Pager, p: nat, write: bool, net: Net)
    requires Inv(s, {}) && p < |s.pages| && !s.pages[p].valid
    ensures AccessSlow(s, p, write, net).0.server == Obtain(s, net.put).0.server
  {
    ObtainKeeps(s, net.put);
    ObtainLeavesInvalid(s, p, net.put);
    var (t, f) := Obtain(s, net.put);
    if f.Some? {
      FillKeeps(t, p, f.value, write, net.get);
      var (u, ok) := Fill(t, p, f.value, write, net.get);
      if ok { AfterFillServer(u, p, net.batchOk); }
    }
  }

  lemma ObtainServer(s: Pager, op: Op)
    requires Inv(s, {}) && OpOk(s, op) && op.Touch? && !s.pages[op.p].valid
    ensures match WritesBack(s, op)
            case None => Obtain(s, op.net.put).0.server == s.server
            case Some((v, data)) =>
              && v < |s.server|
              && Obtain(s, op.net.put).0.server ==
                 if op.net.put == PutFailed(false) then s.server else s.server[v := data]
  {
    if s.free == [] {
      EmptyStackIsFull(s);
      PassOverShape(s, PassLength(s, 0));
    }
  }

  lemma PrefetchServer(s: Pager, start: nat, count: nat, batchOk: bool)
    requires Inv(s, {})
    ensures Prefetch(s, start, count, batchOk).server == s.server
  {
    PrefetchUnfold(s, start, count, batchOk);
    var picks := Picks(s, start, 0, count, Room(s));
    InstallAllEffects(s.(free := s.free[..|s.free| - |picks|]), picks, Popped(s.free, |picks|), 0);
  }

  lemma AfterFillServer(s: Pager, p: nat, batchOk: bool)
    requires Inv(s, {})
    ensures AfterFill(s, p, batchOk).server == s.server
  {
    PrefetchServer(s, p + 1, s.prefetchCount, batchOk);
  }

  lemma VictimResident(s: Pager, op: Op)
    requires Inv(s, {}) && OpOk(s, op) && WritesBack(s, op).Some?
    ensures WritesBack(s, op).value.0 in Resident(s)
  {
    EmptyStackIsFull(s);
    PassOverShape(s, PassLength(s, 0));
  }

  /** A miss that meets no failure exposes the remote copy. */
  lemma MissExposes(s: Pager, op: Op)
    requires Inv(s, {}) && s.socket && OpOk(s, op) && op.Touch? && !s.pages[op.p].valid
    requires op.net.put.PutAcked? && op.net.get.GetOk?
    ensures var (t, out) := Step(s, op); |t.pages| == |s.pages| && t.pages[op.p].valid && out == Exposed(s.server[op.p])
  {
    AccessKeeps(s, op.p, op.write, op.net);
  }

  // ---------- The client facing other answers ----------

  /** The client with another remote store: what it would be fetching from. */
  function Facing(s: Pager, server: seq<Page>): Pager {
    s.(server := server)
  }

  /** A remote store that has the same copies of the cached pages. */
  predicate AgreesOnCached(s: Pager, server: seq<Page>) {
    && |server| == |s.server| == |s.pages|
    && forall q :: 0 <= q < |s.pages| && s.pages[q].valid ==> server[q] == s.server[q]
  }

  lemma FacingKeeps(s: Pager, server: seq<Page>)
    requires Inv(s, {}) && AgreesOnCached(s, server)
    ensures Inv(Facing(s, server), {}) && SameConfig(s, Facing(s, server))
  {
  }

  lemma {:induction false} FacingPass(s: Pager, server: seq<Page>, k: nat)
    requires Shaped(s) && FramesMapped(s) && Full(s) && k <= |s.frames| && |server| == |s.server|
    ensures PassLength(Facing(s, server), k) == PassLength(s, k)
    decreases |s.frames| - k
  {
    if k == |s.frames| {
    } else {
      FacingPass(s, server, k + 1);
    }
  }

  /** Which page goes, and with what bytes, does not depend on the remote store. */
  lemma FacingWritesBack(s: Pager, server: seq<Page>, op: Op)
    requires Inv(s, {}) && AgreesOnCached(s, server) && OpOk(s, op)
    ensures Inv(Facing(s, server), {}) && OpOk(Facing(s, server), op)
    ensures WritesBack(Facing(s, server), op) == WritesBack(s, op)
  {
    FacingKeeps(s, server);
    if s.free == [] {
      EmptyStackIsFull(s);
      FacingPass(s, server, 0);
      PassOverShape(s, PassLength(s, 0));
      assert PassOver(Facing(s, server), PassLength(s, 0)) == Facing(PassOver(s, PassLength(s, 0)), server);
    }
  }
}
