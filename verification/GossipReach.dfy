/**
 Gossip makes pages reachable: one datagram from a page's owner, heard by a node with room
 for it, is enough for that node's GETs to be answered with the cluster's memory.
 */
module GossipReach {
  import opened Base
  import opened GossipCodec
  import opened Membership
  import opened ClusterSystem
  import opened ClusterTables
  import opened ClusterHistory
  import opened ClusterRouting
  import opened ClusterMemory
  import opened ClusterHangs
  import opened MutualRefresh

  /** The table has an entry for o or a free slot for one. */
  predicate HasRoom(t: Table, o: NodeId) {
    Find(t, o) >= 0 || |t| < CLUSTER_MAX_NODES
  }

  ghost predicate ListsAlive(t: Table, o: NodeId) {
    Find(t, o) >= 0 && t[Find(t, o)].state == ALIVE
  }

  lemma SenderListed(cfg: Config, id: NodeId, t: Table, m: Member, now: u64)
    requires TrueTable(cfg, id, t) && Truthful(cfg, m) && m.state == ALIVE && HasRoom(t, m.id)
    ensures ListsAlive(Merge(t, m, now), m.id)
  {
    MergeTruth(cfg, id, t, m, now);
    if Find(t, m.id) < 0 {
      assert Merge(t, m, now)[|t|].id == m.id;
    }
  }

  lemma ListedThroughout(cfg: Config, id: NodeId, t: Table, timeout: u32, evs: seq<Event>, o: NodeId)
    requires TrueTable(cfg, id, t) && TrueMentions(cfg, evs) && ListsAlive(t, o)
    ensures ListsAlive(Run(t, 0, timeout, evs), o)
  {
    RunEntry(cfg, id, t, timeout, evs, 0, Find(t, o));
  }

  /** Whatever else a message says, its sender is listed as alive once it is handled. */
  lemma HeardSender(cfg: Config, id: NodeId, n: Node, m: Message, d: Datagram, clock: nat -> u64)
    requires NodeOk(cfg, id, n) && TrueMessage(cfg, m, d) && HasRoom(n.table, m.sender)
    ensures ListsAlive(Heard(cfg[id], n, m, d, clock).table, m.sender)
  {
    var evs := Mentions(m, d.addr, d.port, clock);
    var first, rest := [evs[0]], evs[1..];
    assert evs == first + rest && first[..0] == [];
    RunAppend(n.table, 0, cfg[id].timeout, first, rest);
    SenderListed(cfg, id, n.table, evs[0].m, clock(0));
    MergeTruth(cfg, id, n.table, evs[0].m, clock(0));
    ListedThroughout(cfg, id, Merge(n.table, evs[0].m, clock(0)), cfg[id].timeout, rest, m.sender);
  }

  /**
   Hearing any datagram of a running owner, a node with room for it knows the owner of all
   the owner's pages.
   */
  lemma HearingTeaches(cfg: Config, s: System, id: NodeId, d: Datagram, clock: nat -> u64, o: NodeId, page: u32)
    requires SystemOk(cfg, s) && DistinctEndpoints(cfg)
    requires id in s.nodes && d in s.net && Parse(d.bytes).Some? && Parse(d.bytes).value.sender == o
    requires o in s.nodes && HasRoom(s.nodes[id].table, o) && InRange(cfg, o, page)
    ensures KnowsOwner(Next(cfg, s, Deliver(id, d, clock)), id, page, o)
    ensures HealthOf(Next(cfg, s, Deliver(id, d, clock)).nodes[id], o) == HealthOf(s.nodes[id], o)
  {
    var n, m := s.nodes[id], Parse(d.bytes).value;
    HeardSender(cfg, id, n, m, d, clock);
    HeardOk(cfg, id, n, m, d, clock);
    DeliveredTable(cfg, s, Deliver(id, d, clock), m);
    var t := Heard(cfg[id], n, m, d, clock).table;
    var e := t[Find(t, o)];
    assert Truthful(cfg, e) && Owns(e, page);
    if Find(n.table, o) >= 0 {
      assert Find(t, o) == Find(n.table, o);
    }
  }

  /** The type bytes of the three messages. */
  lemma MessageKinds(self: Member, t: Table)
    ensures Ping(self).kind == 1 && Pong(self, t).kind == 2 && Join(self).kind == 3
  {
  }

  /**
   A PING and a JOIN are answered with a PONG from the table as it is after the merge; a
   PONG is not answered.
   */
  lemma AnsweredWithPong(cfg: Config, s: System, id: NodeId, d: Datagram, clock: nat -> u64)
    requires SystemOk(cfg, s) && id in s.nodes && d in s.net
    ensures Parse(d.bytes).Some?
    ensures var s', kind := Next(cfg, s, Deliver(id, d, clock)), Parse(d.bytes).value.kind;
            && id in s'.nodes && id in cfg
            && s'.net == if kind == 1 || kind == 3 then s.net + {PongFrom(cfg, s', id)} else s.net
  {
    DeliveredTable(cfg, s, Deliver(id, d, clock), Parse(d.bytes).value);
  }

  /** So hearing the PING or the JOIN of a node makes the hearer's PONG available to everyone. */
  lemma PingIsAnswered(cfg: Config, s: System, b: NodeId, id: NodeId, clock: nat -> u64)
    requires SystemOk(cfg, s) && id in s.nodes && b in s.nodes && b in cfg
    ensures var n := s.nodes[b];
            var ping, join, pong :=
              Post(cfg[b], n, Ping(n.self)), Post(cfg[b], n, Join(n.self)), Post(cfg[b], n, Pong(n.self, n.table));
            && (ping in s.net ==> AnswersTo(cfg, s, id, ping, clock))
            && (join in s.net ==> AnswersTo(cfg, s, id, join, clock))
            && (pong in s.net ==> Next(cfg, s, Deliver(id, pong, clock)).net == s.net)
  {
    var n := s.nodes[b];
    MessageKinds(n.self, n.table);
    Heeded(cfg, s, id, Post(cfg[b], n, Ping(n.self)), Ping(n.self), b, clock);
    Heeded(cfg, s, id, Post(cfg[b], n, Join(n.self)), Join(n.self), b, clock);
    Heeded(cfg, s, id, Post(cfg[b], n, Pong(n.self, n.table)), Pong(n.self, n.table), b, clock);
  }

  /** After the delivery of d the receiver's PONG is in flight. */
  ghost predicate AnswersTo(cfg: Config, s: System, id: NodeId, d: Datagram, clock: nat -> u64) {
    var s' := Next(cfg, s, Deliver(id, d, clock));
    id in s'.nodes && id in cfg && PongFrom(cfg, s', id) in s'.net
  }

  lemma Heeded(cfg: Config, s: System, id: NodeId, d: Datagram, m: Message, b: NodeId, clock: nat -> u64)
    requires SystemOk(cfg, s) && id in s.nodes && b in s.nodes && b in cfg
    requires |m.nodes| <= GOSSIP_MSG_MAX_NODES && d == Post(cfg[b], s.nodes[b], m)
    ensures d in s.net ==>
              if m.kind == 1 || m.kind == 3 then AnswersTo(cfg, s, id, d, clock)
              else Next(cfg, s, Deliver(id, d, clock)).net == s.net
  {
    PostParses(cfg[b], s.nodes[b], m);
    if d in s.net { AnsweredWithPong(cfg, s, id, d, clock); }
  }

  lemma NewDatagram(cfg: Config, s: System, a: Action, d: Datagram)
    requires SystemOk(cfg, s) && d in Next(cfg, s, a).net && d !in s.net
    ensures Parse(d.bytes).Some? && Parse(d.bytes).value.sender in s.nodes
  {
    match a
    case SendPing(id) => PostParses(cfg[id], s.nodes[id], Ping(s.nodes[id].self));
    case SendJoin(id) => PostParses(cfg[id], s.nodes[id], Join(s.nodes[id].self));
    case Deliver(id, e, clock) => PongIsPosted(cfg, s, id, e, clock, d);
    case _ => QuietNet(cfg, s, a);
  }

  lemma PongIsPosted(cfg: Config, s: System, id: NodeId, e: Datagram, clock: nat -> u64, d: Datagram)
    requires SystemOk(cfg, s) && d in Next(cfg, s, Deliver(id, e, clock)).net && d !in s.net
    ensures Parse(d.bytes).Some? && Parse(d.bytes).value.sender in s.nodes
  {
    var n := Heard(cfg[id], s.nodes[id], Parse(e.bytes).value, e, clock);
    var pong := Pong(n.self, n.table);
    PostParses(cfg[id], n, pong);
    assert d == Post(cfg[id], n, pong);
  }

  lemma QuietNet(cfg: Config, s: System, a: Action)
    requires !a.SendPing? && !a.SendJoin? && !a.Deliver?
    ensures Next(cfg, s, a).net == s.net
  {
  }

  /** In every run the sender of a datagram is a running node. */
  lemma {:induction false} SenderRuns(cfg: Config, acts: seq<Action>, d: Datagram)
    requires DistinctEndpoints(cfg) && d in Behave(cfg, acts).net
    ensures Parse(d.bytes).Some? && Parse(d.bytes).value.sender in Behave(cfg, acts).nodes
  {
    var k := |acts| - 1;
    var s := Behave(cfg, acts[..k]);
    BehaveOk(cfg, acts[..k]);
    NextEvolves(cfg, s, acts[k]);
    if d in s.net {
      SenderRuns(cfg, acts[..k], d);
    } else {
      NewDatagram(cfg, s, acts[k], d);
    }
  }

  /**
   From a run to an answer: once a node has heard its owner, a GET for the owner's page over
   a sound link is answered with the page last PUT anywhere in the run.
   */
  lemma HeardOwnerAnswers(cfg: Config, acts: seq<Action>, id: NodeId, d: Datagram, clock: nat -> u64,
                          o: NodeId, page: u32)
    requires DistinctEndpoints(cfg) && DisjointRanges(cfg)
    requires InRange(cfg, o, page) && page < cfg[o].storagePages
    requires var s := Behave(cfg, acts);
             && id in s.nodes && d in s.net && Parse(d.bytes).Some? && Parse(d.bytes).value.sender == o
             && HasRoom(s.nodes[id].table, o) && HealthOf(s.nodes[id], o).Sound?
    ensures Reply(cfg, Behave(cfg, acts + [Deliver(id, d, clock)]), id, page, []) == Some(LastPut(cfg, acts, page))
  {
    var all := acts + [Deliver(id, d, clock)];
    assert all[..|acts|] == acts;
    BehaveOk(cfg, acts);
    SenderRuns(cfg, acts, d);
    HearingTeaches(cfg, Behave(cfg, acts), id, d, clock, o, page);
    assert Answers(cfg, Behave(cfg, all), id, page, [], o);
    GetReturnsLastPut(cfg, all, id, page, []);
  }

  // ---------- A run in which one request silences an owner ----------

  ghost function Hello(cfg: Config, o: NodeId): Datagram
    requires o in cfg
  {
    Post(cfg[o], Boot(cfg[o], o, 0), Ping(SelfEntry(cfg[o], o, 0)))
  }

  /** Nodes a and o start, and a hears o's first PING. */
  ghost function Acquaint(cfg: Config, a: NodeId, o: NodeId): seq<Action>
    requires o in cfg
  {
    [Start(a, 0), Start(o, 0), SendPing(o), Deliver(a, Hello(cfg, o), _ => 0)]
  }

  lemma {:induction false} Acquainted(cfg: Config, a: NodeId, o: NodeId, page: u32)
    requires DistinctEndpoints(cfg) && a in cfg && a != o && InRange(cfg, o, page)
    ensures var s := Behave(cfg, Acquaint(cfg, a, o));
            && SystemOk(cfg, s) && KnowsOwner(s, a, page, o)
            && HealthOf(s.nodes[a], o).Sound? && HealthOf(s.nodes[o], o).Sound?
  {
    var acts := Acquaint(cfg, a, o);
    BehaveOk(cfg, acts[..3]);
    BehaveOk(cfg, acts);
    assert acts[..2] == [Start(a, 0), Start(o, 0)] && acts[..4] == acts;
    TwoStarted(cfg, a, o);
    BehaveNext(cfg, acts, 2);
    BehaveNext(cfg, acts, 3);
    PostParses(cfg[o], Boot(cfg[o], o, 0), Ping(SelfEntry(cfg[o], o, 0)));
    HearingTeaches(cfg, Behave(cfg, acts[..3]), a, Hello(cfg, o), _ => 0, o, page);
    OthersKeep(cfg, Behave(cfg, acts[..3]), a, Hello(cfg, o), _ => 0, o);
  }

  lemma OthersKeep(cfg: Config, s: System, id: NodeId, d: Datagram, clock: nat -> u64, o: NodeId)
    requires o in s.nodes && o != id
    ensures var s' := Next(cfg, s, Deliver(id, d, clock)); o in s'.nodes && s'.nodes[o] == s.nodes[o]
  {
  }

  /**
   A run that shows it: a has heard o, forwards one GET for a page beyond o's storage, and
   its GETs for the pages o does hold are not answered any more.
   */
  lemma {:induction false} OneGetSilencesOwner(cfg: Config, a: NodeId, o: NodeId, bad: u32, good: u32)
    requires DistinctEndpoints(cfg) && DisjointRanges(cfg) && a in cfg && a != o
    requires InRange(cfg, o, bad) && bad >= cfg[o].storagePages && InRange(cfg, o, good) && good < cfg[o].storagePages
    ensures Reply(cfg, Behave(cfg, Acquaint(cfg, a, o)), a, good, []).Some?
    ensures Reply(cfg, Behave(cfg, Acquaint(cfg, a, o) + [GetPage(a, bad, [])]), a, good, []) == None
  {
    var acts := Acquaint(cfg, a, o) + [GetPage(a, bad, [])];
    Acquainted(cfg, a, o, bad);
    assert acts[..4] == Acquaint(cfg, a, o) && acts[..5] == acts;
    BehaveNext(cfg, acts, 4);
    HangSpreads(cfg, Behave(cfg, Acquaint(cfg, a, o)), a, o, bad, good);
  }
}
