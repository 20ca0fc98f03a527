/**
 One node's table over whole runs of mentions and heartbeat ticks: its standing
 invariants, and what the timeout-based failure detector does and does not guarantee.
 */
module FailureDetector {
  import opened Base
  import opened Membership

  ghost predicate TableOk(t: Table) {
    Distinct(t) && |t| <= CLUSTER_MAX_NODES
  }

  /** Over every run: ids stay distinct, the table within its capacity, indices fixed, incarnations rising. */
  lemma {:induction false} TableInvariants(t: Table, self: nat, timeout: u32, evs: seq<Event>)
    requires TableOk(t)
    ensures TableOk(Run(t, self, timeout, evs)) && Extends(t, Run(t, self, timeout, evs))
  {
    if evs == [] {
    } else {
      var k := |evs| - 1;
      TableInvariants(t, self, timeout, evs[..k]);
      var u := Run(t, self, timeout, evs[..k]);
      match evs[k]
      case Mention(m, now) => MergeKeeps(u, m, now);
      case Beat(now) => AgeKeeps(u, self, now, timeout);
    }
  }

  function StateAt(t: Table, self: nat, timeout: u32, evs: seq<Event>, k: nat): Table
    requires k <= |evs|
  {
    Run(t, self, timeout, evs[..k])
  }

  /** The clock read for event k is not behind any time already in the table. */
  ghost predicate ClockOk(t: Table, self: nat, timeout: u32, evs: seq<Event>) {
    forall k :: 0 <= k < |evs| ==> NotBehind(StateAt(t, self, timeout, evs, k), evs[k].now)
  }

  /** The same for mentions alone, which read the clock under the table's lock. */
  ghost predicate MentionsInOrder(t: Table, self: nat, timeout: u32, evs: seq<Event>) {
    forall k :: 0 <= k < |evs| && evs[k].Mention? ==> NotBehind(StateAt(t, self, timeout, evs, k), evs[k].now)
  }

  ghost predicate NotBehind(t: Table, now: u64) {
    forall i :: 0 <= i < |t| ==> t[i].lastSeen <= now
  }

  /**
   Event ev, which led to table u, mentioned its i-th entry at the incarnation it then had
   or a higher one: the entry now has the incarnation of the mention.
   */
  predicate Mentioned(u: Table, i: nat, ev: Event)
    requires i < |u|
  {
    ev.Mention? && ev.m.id == u[i].id && ev.m.incarnation >= u[i].incarnation
  }

  ghost predicate MentionAt(t: Table, self: nat, timeout: u32, evs: seq<Event>, i: nat, k: nat)
    requires k < |evs|
  {
    var u := StateAt(t, self, timeout, evs, k + 1);
    i < |u| && Mentioned(u, i, evs[k])
  }

  /** What one event does to one entry: a mention stamps it, anything else can only make its state worse. */
  lemma EventOnEntry(t: Table, self: nat, timeout: u32, ev: Event, i: nat)
    requires TableOk(t) && i < |After(t, self, timeout, ev)|
    ensures var u := After(t, self, timeout, ev);
            && (Mentioned(u, i, ev) ==> u[i].lastSeen == ev.now)
            && (i < |t| ==> u[i].id == t[i].id)
            && (!Mentioned(u, i, ev) ==>
                  && i < |t|
                  && u[i].lastSeen == t[i].lastSeen && u[i].incarnation == t[i].incarnation
                  && (KnownState(t[i]) ==> KnownState(u[i]) && Severity(t[i]) <= Severity(u[i])))
  {
    if ev.Mention? && i < |t| && ev.m.id == t[i].id {
      assert Find(t, ev.m.id) == i;
    }
  }

  lemma StampedOrKept(t: Table, self: nat, timeout: u32, evs: seq<Event>, k: nat, i: nat)
    requires TableOk(t) && k < |evs| && i < |StateAt(t, self, timeout, evs, k + 1)|
    ensures var u, v := StateAt(t, self, timeout, evs, k), StateAt(t, self, timeout, evs, k + 1);
            && |u| <= |v| && (i < |u| ==> v[i].id == u[i].id)
            && if MentionAt(t, self, timeout, evs, i, k) then v[i].lastSeen == evs[k].now && evs[k].Mention?
               else i < |u| && v[i].lastSeen == u[i].lastSeen
  {
    RunNext(t, self, timeout, evs, k);
    TableInvariants(t, self, timeout, evs[..k]);
    GrowsOrKeeps(StateAt(t, self, timeout, evs, k), self, timeout, evs[k]);
    EventOnEntry(StateAt(t, self, timeout, evs, k), self, timeout, evs[k], i);
  }

  lemma {:induction false} LastSeenRises(t: Table, self: nat, timeout: u32, evs: seq<Event>, j: nat, k: nat, i: nat)
    requires TableOk(t) && MentionsInOrder(t, self, timeout, evs) && j <= k <= |evs|
    requires i < |StateAt(t, self, timeout, evs, j)|
    ensures i < |StateAt(t, self, timeout, evs, k)|
    ensures StateAt(t, self, timeout, evs, j)[i].id == StateAt(t, self, timeout, evs, k)[i].id
    ensures StateAt(t, self, timeout, evs, j)[i].lastSeen <= StateAt(t, self, timeout, evs, k)[i].lastSeen
    decreases k
  {
    if j == k {
    } else {
      LastSeenRises(t, self, timeout, evs, j, k - 1, i);
      RunNext(t, self, timeout, evs, k - 1);
      GrowsOrKeeps(StateAt(t, self, timeout, evs, k - 1), self, timeout, evs[k - 1]);
      StampedOrKept(t, self, timeout, evs, k - 1, i);
      assert evs[k - 1].Mention? ==> StateAt(t, self, timeout, evs, k - 1)[i].lastSeen <= evs[k - 1].now;
    }
  }

  /** No mention is later than the time its entry then carries. */
  lemma MentionIsPast(t: Table, self: nat, timeout: u32, evs: seq<Event>, j: nat, k: nat, i: nat)
    requires TableOk(t) && MentionsInOrder(t, self, timeout, evs) && j < k <= |evs|
    requires MentionAt(t, self, timeout, evs, i, j)
    ensures i < |StateAt(t, self, timeout, evs, k)| && evs[j].now <= StateAt(t, self, timeout, evs, k)[i].lastSeen
  {
    StampedOrKept(t, self, timeout, evs, j, i);
    LastSeenRises(t, self, timeout, evs, j + 1, k, i);
  }

  /** An entry mentioned at all carries the time of a mention. */
  lemma {:induction false} LatestMention(t: Table, self: nat, timeout: u32, evs: seq<Event>, j: nat, k: nat, i: nat)
    returns (l: nat)
    requires TableOk(t) && j < k <= |evs| && MentionAt(t, self, timeout, evs, i, j)
    ensures l < k && MentionAt(t, self, timeout, evs, i, l)
    ensures i < |StateAt(t, self, timeout, evs, k)| && StateAt(t, self, timeout, evs, k)[i].lastSeen == evs[l].now
    decreases k
  {
    if MentionAt(t, self, timeout, evs, i, k - 1) {
      StampedOrKept(t, self, timeout, evs, k - 1, i);
      l := k - 1;
    } else {
      l := LatestMention(t, self, timeout, evs, j, k - 1, i);
      RunNext(t, self, timeout, evs, k - 1);
      GrowsOrKeeps(StateAt(t, self, timeout, evs, k - 1), self, timeout, evs[k - 1]);
      StampedOrKept(t, self, timeout, evs, k - 1, i);
    }
  }

  ghost predicate PastTimeout(t: Table, self: nat, timeout: u32, evs: seq<Event>, k: nat, i: nat)
    requires k < |evs|
  {
    forall j :: 0 <= j < k && MentionAt(t, self, timeout, evs, i, j) ==> evs[k].now - evs[j].now > timeout
  }

  /**
   A tick that marks an entry DEAD found it SUSPECT. It comes more than the timeout after
   every mention of the entry if and only if the time it read is not behind the entry's, or
   the entry was never mentioned.
   */
  lemma DeadExactlyAfterTimeout(t: Table, self: nat, timeout: u32, evs: seq<Event>, k: nat, i: nat)
    requires TableOk(t) && MentionsInOrder(t, self, timeout, evs) && k < |evs| && evs[k].Beat?
    requires var u := StateAt(t, self, timeout, evs, k); i < |u| && u[i].state != DEAD
    requires var v := StateAt(t, self, timeout, evs, k + 1); i < |v| && v[i].state == DEAD
    ensures StateAt(t, self, timeout, evs, k)[i].state == SUSPECT
    ensures PastTimeout(t, self, timeout, evs, k, i) <==>
            || StateAt(t, self, timeout, evs, k)[i].lastSeen <= evs[k].now
            || !exists j :: 0 <= j < k && MentionAt(t, self, timeout, evs, i, j)
  {
    RunNext(t, self, timeout, evs, k);
    forall j | 0 <= j < k && MentionAt(t, self, timeout, evs, i, j)
      ensures evs[j].now <= StateAt(t, self, timeout, evs, k)[i].lastSeen
    {
      MentionIsPast(t, self, timeout, evs, j, k, i);
    }
    if j :| 0 <= j < k && MentionAt(t, self, timeout, evs, i, j) {
      var l := LatestMention(t, self, timeout, evs, j, k, i);
    }
  }

  /**
   Aging never takes an entry from ALIVE straight to DEAD, and when no clock is read behind
   the table, marks it DEAD only more than the timeout after every mention of it.
   */
  lemma DeadOnlyAfterTimeout(t: Table, self: nat, timeout: u32, evs: seq<Event>, k: nat, i: nat)
    requires TableOk(t) && ClockOk(t, self, timeout, evs) && k < |evs| && evs[k].Beat?
    requires var u := StateAt(t, self, timeout, evs, k); i < |u| && u[i].state != DEAD
    requires var v := StateAt(t, self, timeout, evs, k + 1); i < |v| && v[i].state == DEAD
    ensures StateAt(t, self, timeout, evs, k)[i].state == SUSPECT && PastTimeout(t, self, timeout, evs, k, i)
  {
    DeadExactlyAfterTimeout(t, self, timeout, evs, k, i);
    assert NotBehind(StateAt(t, self, timeout, evs, k), evs[k].now);
  }

  // ---------- Completeness: silence is noticed ----------

  /** How far gone an entry is. */
  function Severity(e: Member): nat {
    if e.state == ALIVE then 0 else if e.state == SUSPECT then 1 else 2
  }

  ghost predicate KnownState(e: Member) {
    e.state == ALIVE || e.state == SUSPECT || e.state == DEAD
  }

  ghost predicate NeverMentioned(t: Table, self: nat, timeout: u32, evs: seq<Event>, i: nat) {
    forall k :: 0 <= k < |evs| ==> !MentionAt(t, self, timeout, evs, i, k)
  }

  /** Without mentions an entry keeps its time and incarnation, and only gets worse. */
  lemma {:induction false} SilenceOnlyWorsens(t: Table, self: nat, timeout: u32, evs: seq<Event>, i: nat, j: nat,
                                              k: nat)
    requires TableOk(t) && i < |t| && KnownState(t[i]) && NeverMentioned(t, self, timeout, evs, i)
    requires j <= k <= |evs|
    ensures var u, v := StateAt(t, self, timeout, evs, j), StateAt(t, self, timeout, evs, k);
            && i < |u| && i < |v| && KnownState(v[i]) && Severity(u[i]) <= Severity(v[i])
            && v[i].lastSeen == t[i].lastSeen && v[i].incarnation == t[i].incarnation && v[i].id == t[i].id
    decreases k
  {
    if k == 0 {
      assert evs[..0] == [];
    } else {
      SilenceOnlyWorsens(t, self, timeout, evs, i, if j == k then k - 1 else j, k - 1);
      SilentStep(t, self, timeout, evs, i, k - 1);
    }
  }

  /** One event that does not mention an entry leaves its time alone and its state no better. */
  lemma SilentStep(t: Table, self: nat, timeout: u32, evs: seq<Event>, i: nat, k: nat)
    requires TableOk(t) && k < |evs| && !MentionAt(t, self, timeout, evs, i, k)
    requires var u := StateAt(t, self, timeout, evs, k); i < |u| && KnownState(u[i])
    ensures var u, v := StateAt(t, self, timeout, evs, k), StateAt(t, self, timeout, evs, k + 1);
            && i < |v| && KnownState(v[i]) && Severity(u[i]) <= Severity(v[i])
            && v[i].lastSeen == u[i].lastSeen && v[i].incarnation == u[i].incarnation && v[i].id == u[i].id
  {
    RunNext(t, self, timeout, evs, k);
    TableInvariants(t, self, timeout, evs[..k]);
    var u := StateAt(t, self, timeout, evs, k);
    GrowsOrKeeps(u, self, timeout, evs[k]);
    EventOnEntry(u, self, timeout, evs[k], i);
  }

  lemma GrowsOrKeeps(t: Table, self: nat, timeout: u32, ev: Event)
    ensures |t| <= |After(t, self, timeout, ev)|
  {
  }

  /** Event a is a tick that finds entry e unmentioned for longer than `limit`. */
  predicate LateBeat(evs: seq<Event>, a: nat, e: Member, limit: nat)
    requires a < |evs|
  {
    evs[a].Beat? && Elapsed(e, evs[a].now) > limit
  }

  ghost predicate SomeLate(evs: seq<Event>, k: nat, e: Member, limit: nat)
    requires k <= |evs|
  {
    exists a :: 0 <= a < k && LateBeat(evs, a, e, limit)
  }

  /** A tick later than the timeout comes after one later than half of it. */
  ghost predicate LateTwice(evs: seq<Event>, k: nat, e: Member, timeout: u32)
    requires k <= |evs|
  {
    exists b :: 0 <= b < k && LateBeat(evs, b, e, timeout) && SomeLate(evs, b, e, timeout / 2)
  }

  /** The state of an entry at time zero of its silence decides what ticks turn it into. */
  ghost function SilentState(evs: seq<Event>, k: nat, e: Member, timeout: u32): byte
    requires k <= |evs|
  {
    if e.state == ALIVE then
      if !SomeLate(evs, k, e, timeout / 2) then ALIVE else if LateTwice(evs, k, e, timeout) then DEAD else SUSPECT
    else if e.state == SUSPECT then
      if SomeLate(evs, k, e, timeout) then DEAD else SUSPECT
    else e.state
  }

  lemma LateNext(evs: seq<Event>, k: nat, e: Member, limit: nat)
    requires k < |evs|
    ensures SomeLate(evs, k + 1, e, limit) <==> SomeLate(evs, k, e, limit) || LateBeat(evs, k, e, limit)
  {
    if a :| 0 <= a < k + 1 && LateBeat(evs, a, e, limit) {
      assert a < k || a == k;
    }
  }

  lemma LateTwiceNext(evs: seq<Event>, k: nat, e: Member, timeout: u32)
    requires k < |evs|
    ensures LateTwice(evs, k + 1, e, timeout) <==>
            || LateTwice(evs, k, e, timeout)
            || (LateBeat(evs, k, e, timeout) && SomeLate(evs, k, e, timeout / 2))
  {
    if b :| 0 <= b < k + 1 && LateBeat(evs, b, e, timeout) && SomeLate(evs, b, e, timeout / 2) {
      assert b < k || b == k;
    }
  }

  /**
   Exactly what silence does to a peer: while nobody mentions it, an ALIVE entry stays ALIVE
   until a tick more than half the timeout after its last mention, and is DEAD if and only
   if a tick more than the full timeout after it follows such a tick.
   */
  lemma {:induction false} SilentExactly(t: Table, self: nat, timeout: u32, evs: seq<Event>, i: nat, k: nat)
    requires TableOk(t) && i < |t| && i != self && KnownState(t[i]) && NeverMentioned(t, self, timeout, evs, i)
    requires k <= |evs|
    ensures i < |StateAt(t, self, timeout, evs, k)|
    ensures StateAt(t, self, timeout, evs, k)[i].state == SilentState(evs, k, t[i], timeout)
    decreases k
  {
    if k == 0 {
      assert evs[..0] == [];
    } else {
      SilentExactly(t, self, timeout, evs, i, k - 1);
      SilenceOnlyWorsens(t, self, timeout, evs, i, k - 1, k - 1);
      SilentTick(t, self, timeout, evs, i, k - 1);
      LateNext(evs, k - 1, t[i], timeout);
      LateNext(evs, k - 1, t[i], timeout / 2);
      LateTwiceNext(evs, k - 1, t[i], timeout);
    }
  }

  /** One event of a silence: a tick ages the entry, anything else leaves its state alone. */
  lemma SilentTick(t: Table, self: nat, timeout: u32, evs: seq<Event>, i: nat, k: nat)
    requires TableOk(t) && i != self && k < |evs| && !MentionAt(t, self, timeout, evs, i, k)
    requires i < |StateAt(t, self, timeout, evs, k)|
    ensures var u, v := StateAt(t, self, timeout, evs, k), StateAt(t, self, timeout, evs, k + 1);
            i < |v| && v[i].state == if evs[k].Beat? then AgeOne(u[i], evs[k].now, timeout).state else u[i].state
  {
    RunNext(t, self, timeout, evs, k);
    TableInvariants(t, self, timeout, evs[..k]);
    var u := StateAt(t, self, timeout, evs, k);
    GrowsOrKeeps(u, self, timeout, evs[k]);
    if evs[k].Mention? && evs[k].m.id == u[i].id {
      assert Find(u, evs[k].m.id) == i;
    }
  }

  /** So a peer nobody mentions is DEAD after a tick past half the timeout and one past the whole. */
  lemma SilentPeerDies(t: Table, self: nat, timeout: u32, evs: seq<Event>, i: nat, a: nat, b: nat)
    requires TableOk(t) && i < |t| && i != self && KnownState(t[i]) && NeverMentioned(t, self, timeout, evs, i)
    requires a < b < |evs| && evs[a].Beat? && evs[b].Beat?
    requires evs[a].now > t[i].lastSeen + timeout / 2 && evs[b].now > t[i].lastSeen + timeout
    ensures i < |Run(t, self, timeout, evs)| && Run(t, self, timeout, evs)[i].state == DEAD
  {
    SilentExactly(t, self, timeout, evs, i, |evs|);
    assert evs[..|evs|] == evs;
    assert LateBeat(evs, a, t[i], timeout / 2) && LateBeat(evs, b, t[i], timeout);
    assert SomeLate(evs, b, t[i], timeout / 2);
  }

  /**
   Why the clock condition is needed: the tick reads the time before it takes the lock, so
   an entry refreshed in between is in the tick's future. An ALIVE entry is left alone
   exactly when the tick is at most half the timeout after its last mention, up to 64-bit
   wrap-around; any slightly later mention turns into a suspicion.
   */
  lemma AliveSparedExactly(e: Member, now: u64, timeout: u32)
    requires e.state == ALIVE
    ensures AgeOne(e, now, timeout).state == ALIVE <==>
              || (e.lastSeen <= now && now - e.lastSeen <= timeout / 2)
              || (e.lastSeen > now && e.lastSeen - now >= TWO_64 - timeout / 2)
  {
  }

  /** The same for a SUSPECT entry and the full timeout: any other tick in its past or future kills it. */
  lemma SuspectSparedExactly(e: Member, now: u64, timeout: u32)
    requires e.state == SUSPECT
    ensures AgeOne(e, now, timeout).state == SUSPECT <==>
              || (e.lastSeen <= now && now - e.lastSeen <= timeout)
              || (e.lastSeen > now && e.lastSeen - now >= TWO_64 - timeout)
  {
  }

  /** A SUSPECT peer mentioned one millisecond after the tick read its clock is DEAD at once. */
  lemma FreshSuspectDies(t: Table, m: Member, now: u64, i: nat)
    requires TableOk(t) && 0 < i < |t| && t[i].state == SUSPECT && now + 1 < TWO_64
    requires m.id == t[i].id && m.incarnation == t[i].incarnation && m.state != ALIVE
    ensures i < |Merge(t, m, now + 1)| && Merge(t, m, now + 1)[i].lastSeen == now + 1
    ensures Age(Merge(t, m, now + 1), 0, now, 3000)[i].state == DEAD
  {
    assert Find(t, m.id) == i;
  }

  /** A mention one millisecond after the tick read its clock makes the tick suspect a live peer. */
  lemma FreshPeerSuspected(e: Member, now: u64)
    requires e.state == ALIVE && e.lastSeen == now + 1
    ensures AgeOne(e, now, 3000).state == SUSPECT
  {
  }

  // ---------- Incompleteness: third parties count ----------

  /** The time n steps after `start`. */
  function TimeAt(start: nat, step: nat, n: nat): nat {
    if n == 0 then start else TimeAt(start, step, n - 1) + step
  }

  /** n rounds of: some node mentions m, then, one step later, the heartbeat ticks. */
  function Echoes(m: Member, start: nat, step: nat, n: nat): seq<Event>
    requires TimeAt(start, step, n) < TWO_64
  {
    if n == 0 then []
    else Echoes(m, start, step, n - 1) + [Mention(m, TimeAt(start, step, n - 1)), Beat(TimeAt(start, step, n))]
  }

  /**
   A peer that never speaks again stays ALIVE as long as others go on mentioning it at gaps
   of at most half the timeout, whatever state they report: no silence is ever long enough.
   */
  lemma {:induction false} EchoesKeepAlive(t: Table, self: nat, timeout: u32, i: nat, m: Member, start: nat,
                                           step: nat, n: nat)
    requires TableOk(t) && i < |t| && t[i].state == ALIVE
    requires m.id == t[i].id && m.incarnation == t[i].incarnation
    requires step <= timeout / 2 && TimeAt(start, step, n) < TWO_64
    ensures var u := Run(t, self, timeout, Echoes(m, start, step, n));
            i < |u| && u[i].state == ALIVE && u[i].id == t[i].id && u[i].incarnation == t[i].incarnation
    decreases n
  {
    if n == 0 {
    } else {
      var before, time := Echoes(m, start, step, n - 1), TimeAt(start, step, n - 1);
      EchoesKeepAlive(t, self, timeout, i, m, start, step, n - 1);
      TableInvariants(t, self, timeout, before);
      EchoRound(Run(t, self, timeout, before), self, timeout, i, m, time, step);
      RunTwo(t, self, timeout, before, Mention(m, time), Beat(time + step));
    }
  }

  lemma RunTwo(t: Table, self: nat, timeout: u32, evs: seq<Event>, e: Event, f: Event)
    ensures Run(t, self, timeout, evs + [e, f]) ==
            After(After(Run(t, self, timeout, evs), self, timeout, e), self, timeout, f)
  {
    var all := evs + [e, f];
    assert all[..|evs|] == evs && all[..|evs| + 2] == all;
    RunNext(t, self, timeout, all, |evs|);
    RunNext(t, self, timeout, all, |evs| + 1);
  }

  lemma EchoRound(u: Table, self: nat, timeout: u32, i: nat, m: Member, now: nat, step: nat)
    requires TableOk(u) && i < |u| && u[i].state == ALIVE && m.id == u[i].id && m.incarnation == u[i].incarnation
    requires step <= timeout / 2 && now + step < TWO_64
    ensures var v := Age(Merge(u, m, now), self, now + step, timeout);
            i < |v| && v[i].state == ALIVE && v[i].id == u[i].id && v[i].incarnation == u[i].incarnation
  {
    assert Find(u, m.id) == i;
  }
}
