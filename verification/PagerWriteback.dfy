/**
 When an eviction talks to the server: exactly for a page that is dirty and came from the
 server. So reading alone sends nothing, and without a server nothing is ever sent.
 */
module PagerWriteback {
  import opened Base
  import opened PagerModel
  import opened PagerSteps
  import opened PagerRuns
  import opened PagerResidence
  import opened PagerClock
  import opened PagerCounts
  import opened PagerServer

  /** The hand stops in one place only. */
  lemma StopsOnce(s: Pager, d: nat)
    requires Book(s, {}) && Full(s) && StopsAfter(s, d)
    ensures d == PassLength(s, 0)
  {
    var k := PassLength(s, 0);
  }

  /** The victim's entry differs from what it was only in its reference bit. */
  lemma VictimEntry(s: Pager, d: nat)
    requires Inv(s, {}) && Full(s) && d <= |s.frames|
    ensures var (t, f) := (PassOver(s, d), ClockAt(s.hand, d, |s.frames|));
            && t.hand == f && t.frames == s.frames && t.memory == s.memory && t.server == s.server
            && s.frames[f].page < |t.pages| == |s.pages|
            && var v := s.frames[f].page;
               t.pages[v] == s.pages[v].(referenced := t.pages[v].referenced)
  {
    assert s.frames[ClockAt(s.hand, d, |s.frames|)].occupied;
  }

  /**
   An eviction whose victim is clean, or never came from the server, sends nothing and
   succeeds whatever a PUT would have met. Any other victim is sent first: the eviction
   succeeds exactly if that is acknowledged, and the server has the bytes if they reached it.
   */
  lemma WritesBackExactly(s: Pager, put: PutOutcome, d: nat)
    requires Inv(s, {}) && Full(s) && StopsAfter(s, d)
    ensures var (t, r) := Evict(s, put);
            var f := ClockAt(s.hand, d, |s.frames|);
            var v := s.frames[f].page;
            && v < |s.pages| == |s.server|
            && if s.pages[v].dirty && s.pages[v].location == Remote then
                 && (r.Some? <==> put.PutAcked?)
                 && t.server == if put == PutFailed(false) then s.server else s.server[v := s.memory[f]]
               else r == Some(f) && t.server == s.server
  {
    StopsOnce(s, d);
    VictimEntry(s, d);
    PassOverShape(s, d);
  }

  /** An access fails exactly if the page is absent and a dirty remote victim's PUT or the fetch fails. */
  lemma FailsExactly(s: Pager, p: nat, write: bool, net: Net, d: nat)
    requires Inv(s, {}) && p < |s.pages|
    requires s.free == [] ==> Full(s) && StopsAfter(s, d)
    ensures Access(s, p, write, net).1.None? <==>
            && !s.pages[p].valid
            && (|| (s.socket && net.get.GetFailed?)
                || (s.free == [] && net.put.PutFailed?
                    && var v := s.frames[ClockAt(s.hand, d, |s.frames|)].page;
                       v < |s.pages| && s.pages[v].dirty && s.pages[v].location == Remote))
  {
    AccessKeeps(s, p, write, net);
    if s.free == [] {
      EmptyStackIsFull(s);
      StopsOnce(s, d);
      VictimEntry(s, d);
    }
  }

  // ---------- Runs that send nothing ----------

  ghost predicate AllClean(s: Pager) {
    forall p :: 0 <= p < |s.pages| ==> !s.pages[p].dirty
  }

  /** No page an eviction would have to send. */
  ghost predicate NothingToSend(s: Pager) {
    forall p :: 0 <= p < |s.pages| ==> !(s.pages[p].dirty && s.pages[p].location == Remote)
  }

  /** With nothing to send, an operation leaves the server alone and fails only for want of a page to fetch. */
  lemma SendsNothing(s: Pager, op: Op)
    requires Inv(s, {}) && OpOk(s, op) && NothingToSend(s)
    ensures var (t, out) := Step(s, op);
            && t.server == s.server
            && (op.Touch? ==> (out.Failed? <==> !s.pages[op.p].valid && s.socket && op.net.get.GetFailed?))
  {
    ServerAfter(s, op);
    if s.free == [] {
      EmptyStackIsFull(s);
      VictimEntry(s, PassLength(s, 0));
    }
    if op.Touch? { AccessKeeps(s, op.p, op.write, op.net); }
  }

  lemma ObtainClean(s: Pager, put: PutOutcome)
    requires Inv(s, {}) && AllClean(s)
    ensures AllClean(Obtain(s, put).0)
  {
    if s.free == [] { EmptyStackIsFull(s); }
  }

  lemma MissClean(s: Pager, p: nat, net: Net)
    requires Inv(s, {}) && p < |s.pages| && !s.pages[p].valid && AllClean(s)
    ensures AllClean(AccessSlow(s, p, false, net).0)
  {
    ObtainClean(s, net.put);
    if AccessSlow(s, p, false, net).1.None? {
      FailedMissKeeps(s, p, false, net);
    } else {
      FilledKeeps(s, p, false, net);
      FilledClean(s, p, net);
      AfterFillClean(Filled(s, p, false, net), p, net.batchOk);
    }
  }

  lemma AfterFillClean(u: Pager, p: nat, batchOk: bool)
    requires Inv(u, {}) && AllClean(u)
    ensures AllClean(AfterFill(u, p, batchOk))
  {
    PrefetchKeeps(u, p + 1, u.prefetchCount, batchOk);
  }

  lemma FilledClean(s: Pager, p: nat, net: Net)
    requires Inv(s, {}) && p < |s.pages| && Obtain(s, net.put).1.Some? && AllClean(Obtain(s, net.put).0)
    ensures AllClean(Filled(s, p, false, net))
  {
    ObtainKeeps(s, net.put);
  }

  ghost predicate Reads(op: Op) {
    op.Touch? ==> !op.write
  }

  lemma ReadKeepsClean(s: Pager, op: Op)
    requires Inv(s, {}) && OpOk(s, op) && AllClean(s) && Reads(op)
    ensures AllClean(Step(s, op).0)
  {
    match op
    case Touch(p, write, net) =>
      if !s.pages[p].valid { MissClean(s, p, net); }
    case Store(p, data) =>
    case Fetch(start, count, batchOk) => PrefetchKeeps(s, start, count, batchOk);
  }

  /** The i-th operation is an access that fails. */
  predicate FailsAt(ops: seq<Op>, outs: seq<Output>, i: nat)
    requires i < |ops| == |outs|
  {
    ops[i].Touch? && outs[i].Failed?
  }

  lemma {:induction false} ReadsFrom(s: Pager, ops: seq<Op>)
    requires Inv(s, {}) && OpsOk(s, ops) && AllClean(s) && forall i :: 0 <= i < |ops| ==> Reads(ops[i])
    ensures var (t, outs) := Run(s, ops);
            && t.server == s.server
            && forall i :: 0 <= i < |ops| && FailsAt(ops, outs, i) ==> ops[i].net.get.GetFailed?
    decreases |ops|
  {
    if ops == [] {
    } else {
      StepKeeps(s, ops[0]);
      SendsNothing(s, ops[0]);
      ReadKeepsClean(s, ops[0]);
      var (t, out) := Step(s, ops[0]);
      assert OpsOk(t, ops[1..]);
      ReadsFrom(t, ops[1..]);
      var (u, outs) := Run(t, ops[1..]);
      FailsLater(ops, [out] + outs);
    }
  }

  lemma FailsLater(ops: seq<Op>, outs: seq<Output>)
    requires |ops| == |outs| > 0
    requires FailsAt(ops, outs, 0) ==> ops[0].net.get.GetFailed?
    requires forall i :: 0 <= i < |ops[1..]| && FailsAt(ops[1..], outs[1..], i) ==> ops[1..][i].net.get.GetFailed?
    ensures forall i :: 0 <= i < |ops| && FailsAt(ops, outs, i) ==> ops[i].net.get.GetFailed?
  {
    forall i | 0 <= i < |ops| && FailsAt(ops, outs, i)
      ensures ops[i].net.get.GetFailed?
    {
      if i > 0 {
        assert FailsAt(ops[1..], outs[1..], i - 1);
        assert ops[1..][i - 1] == ops[i];
      }
    }
  }

  /**
   A client that only reads writes nothing: in every run of a new context without write
   accesses the server stays as it was, and an access fails only if its own fetch does,
   however PUTs would fare and however many pages are evicted.
   */
  lemma ReadersWriteNothing(numPages: nat, numVirtual: nat, socket: bool, memory: seq<Page>, server: seq<Page>,
                            ops: seq<Op>)
    requires 1 <= numPages <= UINT32_MAX && numVirtual <= UINT32_MAX
    requires |memory| == numPages && |server| == numVirtual
    requires forall i :: 0 <= i < |ops| ==>
               OpOk(Create(numPages, numVirtual, socket, memory, server), ops[i]) && Reads(ops[i])
    ensures var s := Create(numPages, numVirtual, socket, memory, server);
            && Inv(s, {}) && OpsOk(s, ops)
            && var (t, outs) := Run(s, ops);
               && t.server == server
               && forall i :: 0 <= i < |ops| && FailsAt(ops, outs, i) ==> ops[i].net.get.GetFailed?
  {
    CreateEstablishes(numPages, numVirtual, socket, memory, server);
    ReadsFrom(Create(numPages, numVirtual, socket, memory, server), ops);
  }

  lemma InMemoryStep(s: Pager, op: Op)
    requires Inv(s, {}) && !s.socket && OpOk(s, op)
    ensures var (t, out) := Step(s, op);
            && Inv(t, {}) && SameConfig(s, t) && t.server == s.server && t.fetches == s.fetches && !out.Failed?
  {
    StepKeeps(s, op);
    SendsNothing(s, op);
    StepCounts(s, op);
  }

  /** Without a server no operation sends or fetches anything and no access fails, dirty pages and all. */
  lemma {:induction false} InMemoryNeverFails(s: Pager, ops: seq<Op>)
    requires Inv(s, {}) && !s.socket && OpsOk(s, ops)
    ensures var (t, outs) := Run(s, ops);
            && t.server == s.server && t.fetches == s.fetches
            && forall i :: 0 <= i < |ops| ==> !outs[i].Failed?
    decreases |ops|
  {
    if ops == [] {
    } else {
      InMemoryStep(s, ops[0]);
      var t := Step(s, ops[0]).0;
      assert OpsOk(t, ops[1..]);
      InMemoryNeverFails(t, ops[1..]);
    }
  }
}
