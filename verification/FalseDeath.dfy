/**
 A node is kept alive in another's table only by datagrams that speak of it, and those are
 few: its own, and PONGs from nodes that list it among their first entries. A running node
 that none of them speaks of is declared dead, and its pages read as zeros.
 */
module FalseDeath {
  import opened Base
  import opened GossipCodec
  import opened Membership
  import opened FailureDetector
  import opened ClusterSystem
  import opened ClusterTables
  import opened ClusterRouting
  import opened MutualRefresh

  // ---------- Which datagrams refresh an entry ----------

  /** A message speaks of c: c sent it, or is listed in it. */
  ghost predicate Speaks(m: Message, c: NodeId) {
    m.sender == c || exists j :: 0 <= j < |m.nodes| && m.nodes[j].id == c
  }

  lemma SpeaksIsNamed(m: Message, addr: u32, port: u16, clock: nat -> u64, c: NodeId)
    ensures Names(Mentions(m, addr, port, clock), c) <==> Speaks(m, c)
  {
    var evs := Mentions(m, addr, port, clock);
    if j :| 0 <= j < |m.nodes| && m.nodes[j].id == c {
      assert evs[j + 1].m.id == c;
    }
    assert evs[0].m.id == m.sender;
    if k :| 0 < k < |evs| && evs[k].m.id == c {
      assert m.nodes[k - 1].id == c;
    }
  }

  /** Mentions of others leave an entry alone; of its own, the last one stamps it. */
  lemma {:induction false} RunStamps(cfg: Config, id: NodeId, t: Table, timeout: u32, evs: seq<Event>, i: nat)
    requires TrueTable(cfg, id, t) && TrueMentions(cfg, evs) && i < |t|
    ensures var u := Run(t, 0, timeout, evs);
            && TrueTable(cfg, id, u) && i < |u| && u[i].id == t[i].id
            && (!Names(evs, t[i].id) ==> u[i] == t[i])
            && (Names(evs, t[i].id) ==>
                  exists k :: 0 <= k < |evs| && evs[k].m.id == t[i].id && u[i].lastSeen == evs[k].now)
  {
    if evs == [] {
    } else {
      var k := |evs| - 1;
      RunStamps(cfg, id, t, timeout, evs[..k], i);
      StampNext(cfg, id, t, timeout, evs, i);
    }
  }

  lemma StampNext(cfg: Config, id: NodeId, t: Table, timeout: u32, evs: seq<Event>, i: nat)
    requires evs != [] && TrueMentions(cfg, evs) && i < |t|
    requires var k := |evs| - 1;
             var u := Run(t, 0, timeout, evs[..k]);
             && TrueTable(cfg, id, u) && i < |u| && u[i].id == t[i].id
             && (!Names(evs[..k], t[i].id) ==> u[i] == t[i])
             && (Names(evs[..k], t[i].id) ==>
                   exists j :: 0 <= j < k && evs[..k][j].m.id == t[i].id && u[i].lastSeen == evs[..k][j].now)
    ensures var u := Run(t, 0, timeout, evs);
            && TrueTable(cfg, id, u) && i < |u| && u[i].id == t[i].id
            && (!Names(evs, t[i].id) ==> u[i] == t[i])
            && (Names(evs, t[i].id) ==>
                  exists j :: 0 <= j < |evs| && evs[j].m.id == t[i].id && u[i].lastSeen == evs[j].now)
  {
    var k := |evs| - 1;
    var u := Run(t, 0, timeout, evs[..k]);
    MergeTruth(cfg, id, u, evs[k].m, evs[k].now);
    NamesNext(evs, t[i].id);
    if evs[k].m.id == t[i].id {
      assert Find(u, evs[k].m.id) == i;
      assert Run(t, 0, timeout, evs)[i].lastSeen == evs[k].now;
    } else {
      assert Run(t, 0, timeout, evs)[i] == u[i];
      if Names(evs, t[i].id) {
        var j :| 0 <= j < k && evs[..k][j].m.id == t[i].id && u[i].lastSeen == evs[..k][j].now;
        assert evs[j].m.id == t[i].id;
      }
    }
  }

  /** A datagram refreshes exactly the entries of the nodes it speaks of, and leaves the others as they are. */
  lemma RefreshedExactly(cfg: Config, id: NodeId, n: Node, m: Message, d: Datagram, clock: nat -> u64, i: nat)
    requires NodeOk(cfg, id, n) && TrueMessage(cfg, m, d) && i < |n.table|
    ensures var t := Heard(cfg[id], n, m, d, clock).table;
            && i < |t| && t[i].id == n.table[i].id
            && (!Speaks(m, n.table[i].id) ==> t[i] == n.table[i])
            && (Speaks(m, n.table[i].id) ==> exists k :: 0 <= k <= |m.nodes| && t[i].lastSeen == clock(k))
  {
    var evs := Mentions(m, d.addr, d.port, clock);
    SpeaksIsNamed(m, d.addr, d.port, clock, n.table[i].id);
    RunStamps(cfg, id, n.table, cfg[id].timeout, evs, i);
    var t := Heard(cfg[id], n, m, d, clock).table;
    if Speaks(m, n.table[i].id) {
      var k :| 0 <= k < |evs| && evs[k].m.id == n.table[i].id && t[i].lastSeen == evs[k].now;
      assert evs[k].now == clock(k);
    }
  }

  /** A PING or a JOIN speaks of its sender alone, a PONG also of the first 16 entries of its sender's table. */
  lemma SpokenOfExactly(n: Node, c: NodeId)
    requires Distinct(n.table)
    ensures Speaks(Ping(n.self), c) <==> n.self.id == c
    ensures Speaks(Join(n.self), c) <==> n.self.id == c
    ensures Speaks(Pong(n.self, n.table), c) <==> n.self.id == c || 0 <= Find(n.table, c) < GOSSIP_MSG_MAX_NODES
  {
    assert Join(n.self).nodes[0].id == n.self.id;
    var pong := Pong(n.self, n.table);
    if 0 <= Find(n.table, c) < GOSSIP_MSG_MAX_NODES {
      assert pong.nodes[Find(n.table, c)].id == c;
    }
    if j :| 0 <= j < |pong.nodes| && pong.nodes[j].id == c {
      assert n.table[j].id == c;
    }
  }

  // ---------- A node that nothing speaks of ----------

  /** From point `from` of the run on, no datagram delivered to a speaks of c. */
  ghost predicate Unspoken(cfg: Config, acts: seq<Action>, from: nat, a: NodeId, c: NodeId) {
    forall j :: from <= j < |acts| ==> Passes(At(cfg, acts, j), acts[j], a, c)
  }

  ghost predicate Passes(s: System, act: Action, a: NodeId, c: NodeId) {
    act.Deliver? && act.id == a && act.d in s.net && Parse(act.d.bytes).Some? ==> !Speaks(Parse(act.d.bytes).value, c)
  }

  /** The events at node a from point `from` of the run on. */
  ghost function EventsFrom(cfg: Config, acts: seq<Action>, from: nat, a: NodeId): seq<Event> {
    if |acts| <= from then []
    else
      var k := |acts| - 1;
      EventsFrom(cfg, acts[..k], from, a) + StepEvents(cfg, Behave(cfg, acts[..k]), acts[k], a)
  }

  lemma {:induction false} TableFrom(cfg: Config, acts: seq<Action>, from: nat, a: NodeId)
    requires DistinctEndpoints(cfg) && from <= |acts| && a in At(cfg, acts, from).nodes && a in cfg
    ensures a in Behave(cfg, acts).nodes
    ensures Behave(cfg, acts).nodes[a].table ==
            Run(At(cfg, acts, from).nodes[a].table, 0, cfg[a].timeout, EventsFrom(cfg, acts, from, a))
    decreases |acts|
  {
    var k := |acts| - 1;
    if |acts| == from {
      assert acts[..from] == acts;
    } else {
      assert acts[..k][..from] == acts[..from];
      TableFrom(cfg, acts[..k], from, a);
      TableNext(cfg, acts, from, a, At(cfg, acts, from).nodes[a].table);
    }
  }

  lemma TableNext(cfg: Config, acts: seq<Action>, from: nat, a: NodeId, t: Table)
    requires from < |acts| && a in cfg && a in Behave(cfg, acts[..|acts| - 1]).nodes
    requires Behave(cfg, acts[..|acts| - 1]).nodes[a].table ==
             Run(t, 0, cfg[a].timeout, EventsFrom(cfg, acts[..|acts| - 1], from, a))
    ensures a in Behave(cfg, acts).nodes
    ensures Behave(cfg, acts).nodes[a].table == Run(t, 0, cfg[a].timeout, EventsFrom(cfg, acts, from, a))
  {
    var k := |acts| - 1;
    var s := Behave(cfg, acts[..k]);
    StepIsEvents(cfg, s, acts[k], a);
    RunAppend(t, 0, cfg[a].timeout, EventsFrom(cfg, acts[..k], from, a), StepEvents(cfg, s, acts[k], a));
  }

  lemma {:induction false} UnspokenEvents(cfg: Config, acts: seq<Action>, from: nat, a: NodeId, c: NodeId, n: nat)
    requires Unspoken(cfg, acts, from, a, c) && n <= |acts|
    ensures !Names(EventsFrom(cfg, acts[..n], from, a), c)
    decreases n
  {
    if n <= from {
    } else {
      var k := n - 1;
      UnspokenEvents(cfg, acts, from, a, c, k);
      assert Passes(At(cfg, acts, k), acts[k], a, c);
      assert acts[..n][..k] == acts[..k];
      UnspokenNext(cfg, acts[..n], from, a, c);
    }
  }

  lemma UnspokenNext(cfg: Config, acts: seq<Action>, from: nat, a: NodeId, c: NodeId)
    requires from < |acts| && !Names(EventsFrom(cfg, acts[..|acts| - 1], from, a), c)
    requires Passes(At(cfg, acts, |acts| - 1), acts[|acts| - 1], a, c)
    ensures !Names(EventsFrom(cfg, acts, from, a), c)
  {
    var k := |acts| - 1;
    UnspokenStep(cfg, Behave(cfg, acts[..k]), acts[k], a, c);
    NamesConcat(EventsFrom(cfg, acts[..k], from, a), StepEvents(cfg, Behave(cfg, acts[..k]), acts[k], a), c);
  }

  lemma NamesConcat(evs: seq<Event>, more: seq<Event>, c: NodeId)
    requires !Names(evs, c) && !Names(more, c)
    ensures !Names(evs + more, c)
  {
    forall k | 0 <= k < |evs + more|
      ensures !((evs + more)[k].Mention? && (evs + more)[k].m.id == c)
    {
      if k < |evs| {
        assert (evs + more)[k] == evs[k];
      } else {
        assert (evs + more)[k] == more[k - |evs|];
      }
    }
  }

  lemma UnspokenStep(cfg: Config, s: System, act: Action, a: NodeId, c: NodeId)
    requires Passes(s, act, a, c)
    ensures !Names(StepEvents(cfg, s, act, a), c)
  {
    if act.Deliver? && Parse(act.d.bytes).Some? {
      SpeaksIsNamed(Parse(act.d.bytes).value, act.d.addr, act.d.port, act.clock, c);
    }
  }

  /** Events that do not name an entry's id do not mention the entry. */
  lemma UnnamedUnmentioned(t: Table, timeout: u32, evs: seq<Event>, i: nat)
    requires TableOk(t) && i < |t| && !Names(evs, t[i].id)
    ensures NeverMentioned(t, 0, timeout, evs, i)
  {
    forall k | 0 <= k < |evs|
      ensures !MentionAt(t, 0, timeout, evs, i, k)
    {
      TableInvariants(t, 0, timeout, evs[..k + 1]);
      assert evs[k].Mention? ==> evs[k].m.id != t[i].id;
    }
  }

  /**
   Exactly what becomes of a peer that nothing heard speaks of, running or not: its state at
   a after any run is what its last sign of life and a's heartbeats make of it.
   */
  lemma UnspokenExactly(cfg: Config, acts: seq<Action>, from: nat, a: NodeId, i: nat, c: NodeId)
    requires DistinctEndpoints(cfg) && from <= |acts| && HasEntry(At(cfg, acts, from), a, i) && 0 < i
    requires At(cfg, acts, from).nodes[a].table[i].id == c && Unspoken(cfg, acts, from, a, c)
    ensures a in cfg && HasEntry(Behave(cfg, acts), a, i)
    ensures var e, evs := At(cfg, acts, from).nodes[a].table[i], EventsFrom(cfg, acts, from, a);
            && Behave(cfg, acts).nodes[a].table[i].id == c
            && Behave(cfg, acts).nodes[a].table[i].state == SilentState(evs, |evs|, e, cfg[a].timeout)
  {
    BehaveOk(cfg, acts[..from]);
    assert NodeOk(cfg, a, At(cfg, acts, from).nodes[a]);
    TableFrom(cfg, acts, from, a);
    UnspokenEvents(cfg, acts, from, a, c, |acts|);
    assert acts[..|acts|] == acts;
    SilentAt(cfg, a, At(cfg, acts, from).nodes[a].table, EventsFrom(cfg, acts, from, a), i);
  }

  lemma SilentAt(cfg: Config, a: NodeId, t: Table, evs: seq<Event>, i: nat)
    requires a in cfg && TrueTable(cfg, a, t) && 0 < i < |t| && !Names(evs, t[i].id)
    ensures var u := Run(t, 0, cfg[a].timeout, evs);
            i < |u| && u[i].id == t[i].id && u[i].state == SilentState(evs, |evs|, t[i], cfg[a].timeout)
  {
    UnnamedUnmentioned(t, cfg[a].timeout, evs, i);
    SilentExactly(t, 0, cfg[a].timeout, evs, i, |evs|);
    TableInvariants(t, 0, cfg[a].timeout, evs);
    assert evs[..|evs|] == evs;
  }

  // ---------- Two late heartbeats ----------

  /** Step x of the run is a heartbeat of a, read at more than `limit` after `seen`. */
  ghost predicate LateHeartbeat(acts: seq<Action>, x: nat, a: NodeId, seen: nat, limit: nat)
    requires x < |acts|
  {
    acts[x].Heartbeat? && acts[x].id == a && acts[x].now > seen + limit
  }

  /** A heartbeat in the run is a tick among the events, behind all the events of earlier steps. */
  lemma {:induction false} BeatAmongEvents(cfg: Config, acts: seq<Action>, from: nat, a: NodeId, x: nat)
    requires DistinctEndpoints(cfg) && from <= x < |acts| && a in cfg && a in At(cfg, acts, from).nodes
    requires acts[x].Heartbeat? && acts[x].id == a
    ensures var k, evs := |EventsFrom(cfg, acts[..x], from, a)|, EventsFrom(cfg, acts, from, a);
            k < |evs| && evs[k] == Beat(acts[x].now)
    decreases |acts|
  {
    var k := |acts| - 1;
    assert acts[..k][..from] == acts[..from];
    if x == k {
      TableFrom(cfg, acts[..k], from, a);
      BeatLast(cfg, acts, from, a);
    } else {
      assert acts[..k][..x] == acts[..x];
      BeatAmongEvents(cfg, acts[..k], from, a, x);
      EventsSplit(cfg, acts, from, a);
    }
  }

  lemma BeatLast(cfg: Config, acts: seq<Action>, from: nat, a: NodeId)
    requires from < |acts| && a in cfg && a in Behave(cfg, acts[..|acts| - 1]).nodes
    requires acts[|acts| - 1].Heartbeat? && acts[|acts| - 1].id == a
    ensures var k := |acts| - 1;
            EventsFrom(cfg, acts, from, a) == EventsFrom(cfg, acts[..k], from, a) + [Beat(acts[k].now)]
  {
  }

  lemma EventsSplit(cfg: Config, acts: seq<Action>, from: nat, a: NodeId)
    requires from < |acts|
    ensures var k := |acts| - 1;
            EventsFrom(cfg, acts[..k], from, a) <= EventsFrom(cfg, acts, from, a)
  {
  }

  /**
   False death: however well node c runs, once two heartbeats of a have come late since the
   last datagram that spoke of c, c is DEAD at a, and every GET at a for a page of c is
   answered with zeros.
   */
  lemma FalseDeath(cfg: Config, acts: seq<Action>, from: nat, a: NodeId, i: nat, c: NodeId, x: nat, y: nat,
                   page: u32, links: seq<Link>)
    requires DistinctEndpoints(cfg) && DisjointRanges(cfg) && from <= x < y < |acts|
    requires HasEntry(At(cfg, acts, from), a, i) && 0 < i && At(cfg, acts, from).nodes[a].table[i].id == c
    requires Unspoken(cfg, acts, from, a, c) && a in cfg && InRange(cfg, c, page)
    requires LateHeartbeat(acts, x, a, At(cfg, acts, from).nodes[a].table[i].lastSeen, cfg[a].timeout / 2)
    requires LateHeartbeat(acts, y, a, At(cfg, acts, from).nodes[a].table[i].lastSeen, cfg[a].timeout)
    ensures HasEntry(Behave(cfg, acts), a, i) && Behave(cfg, acts).nodes[a].table[i].state == DEAD
    ensures Reply(cfg, Behave(cfg, acts), a, page, links) == Some(ZERO_PAGE)
  {
    BehaveOk(cfg, acts);
    BehaveOk(cfg, acts[..from]);
    UnspokenExactly(cfg, acts, from, a, i, c);
    LateInRun(cfg, acts, from, a, At(cfg, acts, from).nodes[a].table[i], x, y);
    assert NodeOk(cfg, a, At(cfg, acts, from).nodes[a]);
    DeadReadsZeros(cfg, Behave(cfg, acts), a, i, page, links);
  }

  lemma LateInRun(cfg: Config, acts: seq<Action>, from: nat, a: NodeId, e: Member, x: nat, y: nat)
    requires DistinctEndpoints(cfg) && from <= x < y < |acts| && a in cfg && a in At(cfg, acts, from).nodes
    requires LateHeartbeat(acts, x, a, e.lastSeen, cfg[a].timeout / 2)
    requires LateHeartbeat(acts, y, a, e.lastSeen, cfg[a].timeout)
    ensures var evs := EventsFrom(cfg, acts, from, a);
            && LateTwice(evs, |evs|, e, cfg[a].timeout) && SomeLate(evs, |evs|, e, cfg[a].timeout / 2)
            && SomeLate(evs, |evs|, e, cfg[a].timeout)
  {
    var evs := EventsFrom(cfg, acts, from, a);
    var k, l := |EventsFrom(cfg, acts[..x], from, a)|, |EventsFrom(cfg, acts[..y], from, a)|;
    BeatAmongEvents(cfg, acts, from, a, x);
    BeatAmongEvents(cfg, acts, from, a, y);
    EarlierBeat(cfg, acts, from, a, x, y);
    LateEvents(evs, k, l, e, cfg[a].timeout);
  }

  lemma EarlierBeat(cfg: Config, acts: seq<Action>, from: nat, a: NodeId, x: nat, y: nat)
    requires DistinctEndpoints(cfg) && from <= x < y < |acts| && a in cfg && a in At(cfg, acts, from).nodes
    requires acts[x].Heartbeat? && acts[x].id == a
    ensures |EventsFrom(cfg, acts[..x], from, a)| < |EventsFrom(cfg, acts[..y], from, a)|
  {
    assert acts[..y][..from] == acts[..from] && acts[..y][..x] == acts[..x];
    BeatAmongEvents(cfg, acts[..y], from, a, x);
  }

  lemma LateEvents(evs: seq<Event>, k: nat, l: nat, e: Member, timeout: u32)
    requires k < l < |evs| && evs[k].Beat? && evs[l].Beat?
    requires evs[k].now > e.lastSeen + timeout / 2 && evs[l].now > e.lastSeen + timeout
    ensures LateTwice(evs, |evs|, e, timeout)
    ensures SomeLate(evs, |evs|, e, timeout / 2) && SomeLate(evs, |evs|, e, timeout)
  {
    assert LateBeat(evs, k, e, timeout / 2) && LateBeat(evs, l, e, timeout);
    assert SomeLate(evs, l, e, timeout / 2);
  }

  lemma DeadReadsZeros(cfg: Config, s: System, a: NodeId, i: nat, page: u32, links: seq<Link>)
    requires SystemOk(cfg, s) && DistinctEndpoints(cfg) && DisjointRanges(cfg) && HasEntry(s, a, i) && 0 < i
    requires s.nodes[a].table[i].state == DEAD && InRange(cfg, s.nodes[a].table[i].id, page)
    ensures Reply(cfg, s, a, page, links) == Some(ZERO_PAGE)
  {
    var c := s.nodes[a].table[i].id;
    assert NodeOk(cfg, a, s.nodes[a]);
    assert s.nodes[a].table[0].id == a;
    OtherVisit(cfg, s, a, page, links, false, c);
    assert !KnowsOwner(s, a, page, c);
  }

  // ---------- Beyond the sixteenth entry ----------

  /** Datagram d is one that b, at some point up to j of the run, would have sent. */
  ghost predicate SentBy(cfg: Config, s: System, b: NodeId, d: Datagram) {
    && b in s.nodes && b in cfg
    && (|| d == Post(cfg[b], s.nodes[b], Ping(s.nodes[b].self))
        || d == Post(cfg[b], s.nodes[b], Join(s.nodes[b].self))
        || d == Post(cfg[b], s.nodes[b], Pong(s.nodes[b].self, s.nodes[b].table)))
  }

  /** Every datagram in flight was sent so. */
  lemma {:induction false} SentSometime(cfg: Config, acts: seq<Action>, d: Datagram) returns (h: nat, b: NodeId)
    requires DistinctEndpoints(cfg) && d in Behave(cfg, acts).net
    ensures h <= |acts| && SentBy(cfg, At(cfg, acts, h), b, d)
    decreases |acts|
  {
    var k := |acts| - 1;
    if d in Behave(cfg, acts[..k]).net {
      h, b := SentSometime(cfg, acts[..k], d);
      assert acts[..k][..h] == acts[..h];
    } else {
      h := SentLast(cfg, acts, d);
      b := acts[k].id;
    }
  }

  lemma SentLast(cfg: Config, acts: seq<Action>, d: Datagram) returns (h: nat)
    requires DistinctEndpoints(cfg) && acts != []
    requires d in Behave(cfg, acts).net && d !in Behave(cfg, acts[..|acts| - 1]).net
    ensures h <= |acts| && SentBy(cfg, At(cfg, acts, h), acts[|acts| - 1].id, d)
  {
    var k := |acts| - 1;
    BehaveOk(cfg, acts[..k]);
    if acts[k].Deliver? {
      h := k + 1;
      assert acts[..h] == acts;
      PongJustSent(cfg, Behave(cfg, acts[..k]), acts[k], d);
    } else {
      h := k;
      JustSent(cfg, Behave(cfg, acts[..k]), acts[k], d);
    }
  }

  lemma JustSent(cfg: Config, s: System, act: Action, d: Datagram)
    requires d in Next(cfg, s, act).net && d !in s.net && !act.Deliver?
    ensures SentBy(cfg, s, act.id, d)
  {
  }

  lemma PongJustSent(cfg: Config, s: System, act: Action, d: Datagram)
    requires SystemOk(cfg, s) && d in Next(cfg, s, act).net && d !in s.net && act.Deliver?
    ensures SentBy(cfg, Next(cfg, s, act), act.id, d)
  {
    var m := Parse(act.d.bytes).value;
    DeliveredTable(cfg, s, act, m);
  }

  /** A datagram of another node, whose table, when it sent it, did not have c among its first 16 entries. */
  ghost predicate SentWithout(cfg: Config, s: System, b: NodeId, d: Datagram, c: NodeId) {
    SentBy(cfg, s, b, d) && b != c && !(0 <= Find(s.nodes[b].table, c) < GOSSIP_MSG_MAX_NODES)
  }

  lemma WithoutIsUnspoken(cfg: Config, s: System, b: NodeId, d: Datagram, c: NodeId)
    requires SystemOk(cfg, s) && SentWithout(cfg, s, b, d, c)
    ensures Parse(d.bytes).Some? && !Speaks(Parse(d.bytes).value, c)
  {
    var n := s.nodes[b];
    assert NodeOk(cfg, b, n);
    SpokenOfExactly(n, c);
    PostParses(cfg[b], n, Ping(n.self));
    PostParses(cfg[b], n, Join(n.self));
    PostParses(cfg[b], n, Pong(n.self, n.table));
  }

  /** Every datagram delivered to a from `from` on was sent by some other node without c among its first 16 entries. */
  ghost predicate OnlyHearsWithout(cfg: Config, acts: seq<Action>, from: nat, a: NodeId, c: NodeId) {
    forall j :: from <= j < |acts| && acts[j].Deliver? && acts[j].id == a && acts[j].d in At(cfg, acts, j).net ==>
      exists h, b :: 0 <= h <= j && SentWithout(cfg, At(cfg, acts, h), b, acts[j].d, c)
  }

  /**
   The crowded cluster: a node that sends nothing to a, and stands past the sixteenth entry
   in every table whose PONGs a hears, falls to FalseDeath, whoever else talks to it.
   */
  lemma PastSixteenIsUnspoken(cfg: Config, acts: seq<Action>, from: nat, a: NodeId, c: NodeId)
    requires DistinctEndpoints(cfg) && OnlyHearsWithout(cfg, acts, from, a, c)
    ensures Unspoken(cfg, acts, from, a, c)
  {
    forall j | from <= j < |acts|
      ensures Passes(At(cfg, acts, j), acts[j], a, c)
    {
      if acts[j].Deliver? && acts[j].id == a && acts[j].d in At(cfg, acts, j).net {
        var h, b :| 0 <= h <= j && SentWithout(cfg, At(cfg, acts, h), b, acts[j].d, c);
        BehaveOk(cfg, acts[..h]);
        WithoutIsUnspoken(cfg, At(cfg, acts, h), b, acts[j].d, c);
      }
    }
  }
}
