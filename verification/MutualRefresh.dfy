/**
 Third-party mentions count as signs of life. Two nodes that keep hearing from each other
 keep a third one alive in both their tables for good, although it may never send again.
 */
module MutualRefresh {
  import opened Base
  import opened GossipCodec
  import opened Membership
  import opened FailureDetector
  import opened ClusterSystem

  /** What one truthful mention does to one entry. */
  lemma MentionEntry(cfg: Config, id: NodeId, t: Table, m: Member, now: u64, i: nat)
    requires TrueTable(cfg, id, t) && Truthful(cfg, m) && i < |t|
    ensures var u := Merge(t, m, now);
            && TrueTable(cfg, id, u) && i < |u| && u[i].id == t[i].id
            && (t[i].state == ALIVE ==> u[i].state == ALIVE)
            && u[i].lastSeen == if m.id == t[i].id then now else t[i].lastSeen
  {
    MergeTruth(cfg, id, t, m, now);
    if m.id == t[i].id {
      assert Find(t, m.id) == i;
    }
  }

  ghost predicate Names(evs: seq<Event>, id: NodeId) {
    exists k :: 0 <= k < |evs| && evs[k].Mention? && evs[k].m.id == id
  }

  lemma NamesNext(evs: seq<Event>, id: NodeId)
    requires evs != []
    ensures var k := |evs| - 1; Names(evs, id) <==> Names(evs[..k], id) || (evs[k].Mention? && evs[k].m.id == id)
  {
    var k := |evs| - 1;
    if j :| 0 <= j < k && evs[..k][j].Mention? && evs[..k][j].m.id == id {
      assert evs[j].Mention? && evs[j].m.id == id;
    }
    if j :| 0 <= j < k && evs[j].Mention? && evs[j].m.id == id {
      assert evs[..k][j].m.id == id;
    }
  }

  /** What a batch of truthful mentions, none read before `now`, does to one entry. */
  lemma {:induction false} RunEntry(cfg: Config, id: NodeId, t: Table, timeout: u32, evs: seq<Event>, now: u64, i: nat)
    requires TrueTable(cfg, id, t) && TrueMentions(cfg, evs) && i < |t|
    requires forall k :: 0 <= k < |evs| ==> evs[k].now >= now
    ensures var u := Run(t, 0, timeout, evs);
            && TrueTable(cfg, id, u) && i < |u| && u[i].id == t[i].id
            && (t[i].state == ALIVE ==> u[i].state == ALIVE)
            && (u[i].lastSeen >= now || (u[i].lastSeen == t[i].lastSeen && !Names(evs, t[i].id)))
  {
    if evs == [] {
    } else {
      var k := |evs| - 1;
      RunEntry(cfg, id, t, timeout, evs[..k], now, i);
      MentionEntry(cfg, id, Run(t, 0, timeout, evs[..k]), evs[k].m, evs[k].now, i);
      NamesNext(evs, t[i].id);
    }
  }

  /** Index i of node a's table holds an entry for c, alive, near enough to the front for a PONG. */
  ghost predicate Lists(s: System, a: NodeId, i: nat, c: NodeId) {
    && a in s.nodes && i < |s.nodes[a].table| && i < GOSSIP_MSG_MAX_NODES
    && s.nodes[a].table[i].id == c && s.nodes[a].table[i].state == ALIVE
  }

  ghost function SeenAt(s: System, a: NodeId, i: nat): int {
    if a in s.nodes && i < |s.nodes[a].table| then s.nodes[a].table[i].lastSeen else 0
  }

  /** The PONG node b would send from state s. */
  ghost function PongFrom(cfg: Config, s: System, b: NodeId): Datagram
    requires b in s.nodes && b in cfg
  {
    Post(cfg[b], s.nodes[b], Pong(s.nodes[b].self, s.nodes[b].table))
  }

  /** The clock an action reads is not behind the times in its node's table, nor later readings behind the first. */
  ghost predicate ClockStep(s: System, a: Action) {
    && (a.Deliver? && a.id in s.nodes ==>
          NotBehind(s.nodes[a.id].table, a.clock(0)) && forall i: nat :: a.clock(0) <= a.clock(i))
    && (a.Heartbeat? && a.id in s.nodes ==> NotBehind(s.nodes[a.id].table, a.now))
  }

  ghost function At(cfg: Config, acts: seq<Action>, k: nat): System
    requires k <= |acts|
  {
    Behave(cfg, acts[..k])
  }

  ghost predicate ClocksFrom(cfg: Config, acts: seq<Action>, from: nat) {
    forall k :: from <= k < |acts| ==> ClockStep(At(cfg, acts, k), acts[k])
  }

  /** Step j delivers to a a PONG that b sent at or after `from`. */
  ghost predicate HearsPong(cfg: Config, acts: seq<Action>, from: nat, j: nat, a: NodeId, b: NodeId)
    requires j < |acts|
  {
    && acts[j].Deliver? && acts[j].id == a && acts[j].d in At(cfg, acts, j).net
    && exists i :: && from <= i <= j && b in At(cfg, acts, i).nodes && b in cfg
                   && acts[j].d == PongFrom(cfg, At(cfg, acts, i), b)
  }

  /**
   Every heartbeat of a comes at most half its timeout after it heard a PONG from b, or
   after the time its entry for c carried at the start.
   */
  ghost predicate HearsRegularly(cfg: Config, acts: seq<Action>, from: nat, a: NodeId, i: nat, b: NodeId)
    requires from <= |acts|
  {
    forall k :: from <= k < |acts| && acts[k].Heartbeat? && acts[k].id == a ==> Fresh(cfg, acts, from, k, a, i, b)
  }

  ghost predicate Fresh(cfg: Config, acts: seq<Action>, from: nat, k: nat, a: NodeId, i: nat, b: NodeId)
    requires from <= k < |acts| && acts[k].Heartbeat?
  {
    && a in cfg
    && (|| acts[k].now <= SeenAt(At(cfg, acts, from), a, i) + cfg[a].timeout / 2
        || exists j :: from <= j < k && HearsPong(cfg, acts, from, j, a, b)
                       && acts[k].now <= acts[j].clock(0) + cfg[a].timeout / 2)
  }

  lemma AtNext(cfg: Config, acts: seq<Action>, k: nat)
    requires k < |acts|
    ensures At(cfg, acts, k + 1) == Next(cfg, At(cfg, acts, k), acts[k])
  {
    assert acts[..k + 1][..k] == acts[..k];
  }

  /** One step never moves an entry's time back, and only a heartbeat can stop it being alive. */
  lemma StepEntry(cfg: Config, s: System, act: Action, a: NodeId, i: nat)
    requires SystemOk(cfg, s) && DistinctEndpoints(cfg) && ClockStep(s, act)
    requires a in s.nodes && i < |s.nodes[a].table|
    ensures var s' := Next(cfg, s, act);
            && a in s'.nodes && i < |s'.nodes[a].table|
            && s'.nodes[a].table[i].id == s.nodes[a].table[i].id
            && s'.nodes[a].table[i].lastSeen >= s.nodes[a].table[i].lastSeen
            && (!(act.Heartbeat? && act.id == a) && s.nodes[a].table[i].state == ALIVE ==>
                  s'.nodes[a].table[i].state == ALIVE)
  {
    if act.Deliver? && act.id == a && act.d in s.net {
      var m := Parse(act.d.bytes).value;
      var evs := Mentions(m, act.d.addr, act.d.port, act.clock);
      RunEntry(cfg, a, s.nodes[a].table, cfg[a].timeout, evs, act.clock(0), i);
      DeliveredTable(cfg, s, act, m);
    } else {
      OtherStepsKeepTable(cfg, s, act, a);
    }
  }

  lemma OtherStepsKeepTable(cfg: Config, s: System, act: Action, a: NodeId)
    requires a in s.nodes && !(act.Deliver? && act.id == a && act.d in s.net)
    ensures var s' := Next(cfg, s, act);
            && a in s'.nodes
            && (!(act.Heartbeat? && act.id == a) ==> s'.nodes[a].table == s.nodes[a].table)
            && (act.Heartbeat? && act.id == a && a in cfg ==>
                  s'.nodes[a].table == Age(s.nodes[a].table, 0, act.now, cfg[a].timeout))
            && (act.Heartbeat? && a !in cfg ==> s'.nodes[a].table == s.nodes[a].table)
  {
    match act
    case GetPage(_, _, _) => RequestKeepsTables(cfg, s, act, a);
    case PutPage(_, _, _, _) => RequestKeepsTables(cfg, s, act, a);
    case _ =>
  }

  /** Hearing a PONG that lists c refreshes the entry for c. */
  lemma PongRefreshes(cfg: Config, s: System, act: Action, a: NodeId, i: nat, past: System, b: NodeId, j: nat,
                      c: NodeId)
    requires SystemOk(cfg, s) && SystemOk(cfg, past) && DistinctEndpoints(cfg)
    requires a in s.nodes && i < |s.nodes[a].table| && s.nodes[a].table[i].id == c
    requires act.Deliver? && act.id == a && act.d in s.net && forall h: nat :: act.clock(0) <= act.clock(h)
    requires Lists(past, b, j, c) && b in cfg && act.d == PongFrom(cfg, past, b)
    ensures var s' := Next(cfg, s, act);
            a in s'.nodes && i < |s'.nodes[a].table| && s'.nodes[a].table[i].lastSeen >= act.clock(0)
  {
    var pong := Pong(past.nodes[b].self, past.nodes[b].table);
    PostParses(cfg[b], past.nodes[b], pong);
    assert Genuine(cfg, act.d) && pong.nodes[j].id == c;
    HearsEntry(cfg, a, s.nodes[a], pong, act.d, act.clock, i, j);
    DeliveredTable(cfg, s, act, pong);
  }

  lemma DeliveredTable(cfg: Config, s: System, act: Action, m: Message)
    requires act.Deliver? && act.id in s.nodes && act.id in cfg && act.d in s.net && Parse(act.d.bytes) == Some(m)
    ensures act.id in Next(cfg, s, act).nodes
    ensures Next(cfg, s, act).nodes[act.id] == Heard(cfg[act.id], s.nodes[act.id], m, act.d, act.clock)
  {
  }

  lemma HearsEntry(cfg: Config, a: NodeId, n: Node, m: Message, d: Datagram, clock: nat -> u64, i: nat, j: nat)
    requires NodeOk(cfg, a, n) && TrueMessage(cfg, m, d) && forall h: nat :: clock(0) <= clock(h)
    requires i < |n.table| && j < |m.nodes| && m.nodes[j].id == n.table[i].id
    ensures var n' := Heard(cfg[a], n, m, d, clock); i < |n'.table| && n'.table[i].lastSeen >= clock(0)
  {
    var evs := Mentions(m, d.addr, d.port, clock);
    assert evs[j + 1].m.id == n.table[i].id && Names(evs, n.table[i].id);
    RunEntry(cfg, a, n.table, cfg[a].timeout, evs, clock(0), i);
  }

  ghost predicate HasEntry(s: System, a: NodeId, i: nat) {
    a in s.nodes && i < |s.nodes[a].table|
  }

  lemma SeenStep(cfg: Config, acts: seq<Action>, k: nat, a: NodeId, i: nat)
    requires DistinctEndpoints(cfg) && k < |acts| && ClockStep(At(cfg, acts, k), acts[k])
    requires HasEntry(At(cfg, acts, k), a, i)
    ensures HasEntry(At(cfg, acts, k + 1), a, i)
    ensures SeenAt(At(cfg, acts, k), a, i) <= SeenAt(At(cfg, acts, k + 1), a, i)
  {
    BehaveOk(cfg, acts[..k]);
    AtNext(cfg, acts, k);
    StepEntry(cfg, At(cfg, acts, k), acts[k], a, i);
  }

  lemma {:induction false} SeenRises(cfg: Config, acts: seq<Action>, from: nat, j: nat, k: nat, a: NodeId, i: nat)
    requires DistinctEndpoints(cfg) && from <= j <= k <= |acts| && ClocksFrom(cfg, acts, from)
    requires HasEntry(At(cfg, acts, j), a, i)
    ensures HasEntry(At(cfg, acts, k), a, i)
    ensures SeenAt(At(cfg, acts, j), a, i) <= SeenAt(At(cfg, acts, k), a, i)
    decreases k
  {
    if j == k {
    } else {
      SeenRises(cfg, acts, from, j, k - 1, a, i);
      assert ClockStep(At(cfg, acts, k - 1), acts[k - 1]);
      SeenStep(cfg, acts, k - 1, a, i);
    }
  }

  /** A heartbeat that is fresh enough leaves the entry for c alive. */
  lemma HeartbeatSpares(cfg: Config, acts: seq<Action>, from: nat, k: nat, a: NodeId, i: nat, b: NodeId, ib: nat,
                        c: NodeId)
    requires DistinctEndpoints(cfg) && from <= k < |acts| && ClocksFrom(cfg, acts, from)
    requires acts[k].Heartbeat? && acts[k].id == a && Fresh(cfg, acts, from, k, a, i, b)
    requires AlwaysListed(cfg, acts, from, k, a, i, c) && AlwaysListed(cfg, acts, from, k, b, ib, c)
    ensures Lists(At(cfg, acts, k + 1), a, i, c)
  {
    BehaveOk(cfg, acts[..k]);
    AtNext(cfg, acts, k);
    SeenRecently(cfg, acts, from, k, a, i, b, ib, c);
    assert Lists(At(cfg, acts, k), a, i, c) && ClockStep(At(cfg, acts, k), acts[k]);
    BeatKeepsAlive(cfg, At(cfg, acts, k), acts[k], i, c);
  }

  lemma BeatKeepsAlive(cfg: Config, s: System, act: Action, i: nat, c: NodeId)
    requires act.Heartbeat? && act.id in cfg && Lists(s, act.id, i, c) && ClockStep(s, act)
    requires act.now <= SeenAt(s, act.id, i) + cfg[act.id].timeout / 2
    ensures Lists(Next(cfg, s, act), act.id, i, c)
  {
    OtherStepsKeepTable(cfg, s, act, act.id);
  }

  lemma SeenRecently(cfg: Config, acts: seq<Action>, from: nat, k: nat, a: NodeId, i: nat, b: NodeId, ib: nat,
                     c: NodeId)
    requires DistinctEndpoints(cfg) && from <= k < |acts| && ClocksFrom(cfg, acts, from)
    requires acts[k].Heartbeat? && acts[k].id == a && Fresh(cfg, acts, from, k, a, i, b)
    requires AlwaysListed(cfg, acts, from, k, a, i, c) && AlwaysListed(cfg, acts, from, k, b, ib, c)
    ensures acts[k].now <= SeenAt(At(cfg, acts, k), a, i) + cfg[a].timeout / 2
  {
    if acts[k].now <= SeenAt(At(cfg, acts, from), a, i) + cfg[a].timeout / 2 {
      assert Lists(At(cfg, acts, from), a, i, c);
      SeenRises(cfg, acts, from, from, k, a, i);
    } else {
      var j :| && from <= j < k && HearsPong(cfg, acts, from, j, a, b)
               && acts[k].now <= acts[j].clock(0) + cfg[a].timeout / 2;
      SeenSincePong(cfg, acts, from, j, k, a, i, b, ib, c);
    }
  }

  lemma SeenSincePong(cfg: Config, acts: seq<Action>, from: nat, j: nat, k: nat, a: NodeId, i: nat, b: NodeId,
                      ib: nat, c: NodeId)
    requires DistinctEndpoints(cfg) && from <= j < k <= |acts| && ClocksFrom(cfg, acts, from)
    requires HearsPong(cfg, acts, from, j, a, b)
    requires AlwaysListed(cfg, acts, from, j, a, i, c) && AlwaysListed(cfg, acts, from, j, b, ib, c)
    ensures acts[j].clock(0) <= SeenAt(At(cfg, acts, k), a, i)
  {
    assert ClockStep(At(cfg, acts, j), acts[j]);
    PongSeen(cfg, acts, from, j, a, i, b, ib, c);
    SeenRises(cfg, acts, from, j + 1, k, a, i);
  }

  lemma PongSeen(cfg: Config, acts: seq<Action>, from: nat, j: nat, a: NodeId, i: nat, b: NodeId, ib: nat, c: NodeId)
    requires DistinctEndpoints(cfg) && from <= j < |acts| && HearsPong(cfg, acts, from, j, a, b)
    requires ClockStep(At(cfg, acts, j), acts[j])
    requires AlwaysListed(cfg, acts, from, j, a, i, c) && AlwaysListed(cfg, acts, from, j, b, ib, c)
    ensures HasEntry(At(cfg, acts, j + 1), a, i)
    ensures SeenAt(At(cfg, acts, j + 1), a, i) >= acts[j].clock(0)
  {
    var h :| && from <= h <= j && b in At(cfg, acts, h).nodes && b in cfg
             && acts[j].d == PongFrom(cfg, At(cfg, acts, h), b);
    BehaveOk(cfg, acts[..j]);
    BehaveOk(cfg, acts[..h]);
    AtNext(cfg, acts, j);
    assert Lists(At(cfg, acts, j), a, i, c) && Lists(At(cfg, acts, h), b, ib, c);
    PongRefreshes(cfg, At(cfg, acts, j), acts[j], a, i, At(cfg, acts, h), b, ib, c);
  }

  /**
   Mutual refresh: if a and b list c as alive among the entries a PONG carries, and each
   hears the other's PONGs at gaps of at most half its timeout, then c stays alive in both
   tables at every later point of the run. Nothing is asked of c.
   */
  lemma {:induction false} MutualRefresh(cfg: Config, acts: seq<Action>, from: nat, k: nat,
                                         a: NodeId, ia: nat, b: NodeId, ib: nat, c: NodeId)
    requires DistinctEndpoints(cfg) && from <= k <= |acts| && ClocksFrom(cfg, acts, from)
    requires Lists(At(cfg, acts, from), a, ia, c) && Lists(At(cfg, acts, from), b, ib, c)
    requires HearsRegularly(cfg, acts, from, a, ia, b) && HearsRegularly(cfg, acts, from, b, ib, a)
    ensures AlwaysListed(cfg, acts, from, k, a, ia, c) && AlwaysListed(cfg, acts, from, k, b, ib, c)
    decreases k
  {
    if from < k {
      MutualRefresh(cfg, acts, from, k - 1, a, ia, b, ib, c);
      RefreshOnce(cfg, acts, from, k - 1, a, ia, b, ib, c);
    } else {
      ListedNow(cfg, acts, k, a, ia, c);
      ListedNow(cfg, acts, k, b, ib, c);
    }
  }

  lemma RefreshOnce(cfg: Config, acts: seq<Action>, from: nat, k: nat,
                    a: NodeId, ia: nat, b: NodeId, ib: nat, c: NodeId)
    requires DistinctEndpoints(cfg) && from <= k < |acts| && ClocksFrom(cfg, acts, from)
    requires HearsRegularly(cfg, acts, from, a, ia, b) && HearsRegularly(cfg, acts, from, b, ib, a)
    requires AlwaysListed(cfg, acts, from, k, a, ia, c) && AlwaysListed(cfg, acts, from, k, b, ib, c)
    ensures AlwaysListed(cfg, acts, from, k + 1, a, ia, c) && AlwaysListed(cfg, acts, from, k + 1, b, ib, c)
  {
    StaysListed(cfg, acts, from, k, a, ia, b, ib, c);
    StaysListed(cfg, acts, from, k, b, ib, a, ia, c);
    ListedLonger(cfg, acts, from, k + 1, a, ia, c);
    ListedLonger(cfg, acts, from, k + 1, b, ib, c);
  }

  lemma ListedNow(cfg: Config, acts: seq<Action>, k: nat, a: NodeId, i: nat, c: NodeId)
    requires k <= |acts| && Lists(At(cfg, acts, k), a, i, c)
    ensures AlwaysListed(cfg, acts, k, k, a, i, c)
  {
  }

  lemma ListedLonger(cfg: Config, acts: seq<Action>, from: nat, k: nat, a: NodeId, i: nat, c: NodeId)
    requires from < k <= |acts| && AlwaysListed(cfg, acts, from, k - 1, a, i, c) && Lists(At(cfg, acts, k), a, i, c)
    ensures AlwaysListed(cfg, acts, from, k, a, i, c)
  {
  }

  /** From point `from` to point k of the run, a lists c at index i. */
  ghost predicate AlwaysListed(cfg: Config, acts: seq<Action>, from: nat, k: nat, a: NodeId, i: nat, c: NodeId)
    requires k <= |acts|
  {
    forall h :: from <= h <= k ==> Lists(At(cfg, acts, h), a, i, c)
  }

  lemma StaysListed(cfg: Config, acts: seq<Action>, from: nat, k: nat, a: NodeId, i: nat, b: NodeId, ib: nat, c: NodeId)
    requires DistinctEndpoints(cfg) && from <= k < |acts| && ClocksFrom(cfg, acts, from)
    requires HearsRegularly(cfg, acts, from, a, i, b)
    requires AlwaysListed(cfg, acts, from, k, a, i, c) && AlwaysListed(cfg, acts, from, k, b, ib, c)
    ensures Lists(At(cfg, acts, k + 1), a, i, c)
  {
    if acts[k].Heartbeat? && acts[k].id == a {
      HeartbeatSpares(cfg, acts, from, k, a, i, b, ib, c);
    } else {
      BehaveOk(cfg, acts[..k]);
      AtNext(cfg, acts, k);
      assert Lists(At(cfg, acts, k), a, i, c) && ClockStep(At(cfg, acts, k), acts[k]);
      StepEntry(cfg, At(cfg, acts, k), acts[k], a, i);
    }
  }
}
