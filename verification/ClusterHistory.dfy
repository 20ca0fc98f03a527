/** What time does to a node: its table, its connections and its own entry in every run. */
module ClusterHistory {
  import opened Base
  import opened GossipCodec
  import opened Membership
  import opened ClusterSystem

  /** A broken connection stays broken, and a stuck one stuck until it breaks. */
  predicate NoBetter(h: Health, h': Health) {
    (h.Broken? ==> h'.Broken?) && (h.Stuck? ==> !h'.Sound?)
  }

  ghost predicate ConnsEvolve(cs: map<nat, Conn>, cs': map<nat, Conn>) {
    forall i :: i in cs ==> i in cs' && cs'[i].peer == cs[i].peer && NoBetter(cs[i].health, cs'[i].health)
  }

  /**
   Node n has become n': indices keep their ids, connections stay and do not mend, its own
   entry is alive at index 0.
   */
  ghost predicate Evolves(id: NodeId, n: Node, n': Node) {
    && Extends(n.table, n'.table)
    && n'.self == n.self
    && |n'.table| <= CLUSTER_MAX_NODES && Distinct(n'.table)
    && |n'.table| >= 1 && n'.table[0].id == id && n'.table[0].state == ALIVE
    && ConnsEvolve(n.peers, n'.peers)
    && (forall i :: i in n'.peers ==> i < |n'.table| && n'.peers[i].peer == n'.table[i].id)
  }

  ghost predicate SystemEvolves(s: System, s': System) {
    && s.net <= s'.net
    && forall id :: id in s.nodes ==> id in s'.nodes && Evolves(id, s.nodes[id], s'.nodes[id])
  }

  lemma NextEvolves(cfg: Config, s: System, a: Action)
    requires SystemOk(cfg, s) && DistinctEndpoints(cfg)
    ensures SystemEvolves(s, Next(cfg, s, a))
  {
    NextOk(cfg, s, a);
    forall id | id in s.nodes
      ensures id in Next(cfg, s, a).nodes && Evolves(id, s.nodes[id], Next(cfg, s, a).nodes[id])
    {
      NodeEvolves(cfg, s, a, id);
    }
    NetGrows(cfg, s, a);
  }

  lemma NetGrows(cfg: Config, s: System, a: Action)
    ensures s.net <= Next(cfg, s, a).net
  {
  }

  lemma NodeEvolves(cfg: Config, s: System, a: Action, id: NodeId)
    requires SystemOk(cfg, s) && DistinctEndpoints(cfg) && id in s.nodes && SystemOk(cfg, Next(cfg, s, a))
    ensures id in Next(cfg, s, a).nodes && Evolves(id, s.nodes[id], Next(cfg, s, a).nodes[id])
  {
    match a
    case Deliver(r, d, clock) => DeliverEvolves(cfg, s, r, d, clock, id);
    case Heartbeat(r, now) => BeatEvolves(cfg, s, r, now, id);
    case PutPage(r, page, data, links) => PutEvolves(cfg, s, r, page, data, links, id);
    case Start(_, _) => StaysSame(cfg, id, s.nodes[id]);
    case SendPing(_) => StaysSame(cfg, id, s.nodes[id]);
    case SendJoin(_) => StaysSame(cfg, id, s.nodes[id]);
    case GetPage(r, page, links) => TraceEvolves(cfg, s, r, page, links, false, {}, id);
  }

  lemma StaysSame(cfg: Config, id: NodeId, n: Node)
    requires NodeOk(cfg, id, n)
    ensures Evolves(id, n, n)
  {
  }

  lemma BeatEvolves(cfg: Config, s: System, r: NodeId, now: u64, id: NodeId)
    requires SystemOk(cfg, s) && id in s.nodes
    ensures var s' := Next(cfg, s, Heartbeat(r, now)); id in s'.nodes && Evolves(id, s.nodes[id], s'.nodes[id])
  {
    var n := s.nodes[id];
    StaysSame(cfg, id, n);
    AgedEvolves(cfg, id, n, now);
    var s' := Next(cfg, s, Heartbeat(r, now));
    assert s'.nodes[id] == n || s'.nodes[id] == n.(table := Age(n.table, 0, now, cfg[id].timeout));
  }

  lemma AgedEvolves(cfg: Config, id: NodeId, n: Node, now: u64)
    requires NodeOk(cfg, id, n)
    ensures Evolves(id, n, n.(table := Age(n.table, 0, now, cfg[id].timeout)))
  {
    AgeTruth(cfg, id, n.table, now, cfg[id].timeout);
  }

  lemma DeliverEvolves(cfg: Config, s: System, r: NodeId, d: Datagram, clock: nat -> u64, id: NodeId)
    requires SystemOk(cfg, s) && id in s.nodes
    ensures var s' := Next(cfg, s, Deliver(r, d, clock)); id in s'.nodes && Evolves(id, s.nodes[id], s'.nodes[id])
  {
    if r == id && d in s.net {
      HeardOk(cfg, id, s.nodes[id], Parse(d.bytes).value, d, clock);
    }
  }

  lemma {:induction false} TraceEvolves(cfg: Config, s: System, r: NodeId, page: u32, links: seq<Link>, put: bool,
                                        seen: set<NodeId>, id: NodeId)
    requires SystemOk(cfg, s) && DistinctEndpoints(cfg) && id in s.nodes
    ensures Evolves(id, s.nodes[id], Trace(cfg, s, r, page, links, put, seen).nodes[id])
    decreases s.nodes.Keys - seen
  {
    StaysSame(cfg, id, s.nodes[id]);
    if r !in s.nodes || ServesHere(s.nodes[r], page) || r in seen || Owner(s.nodes[r].table, page).None? {
    } else if r == id {
      TraceHere(cfg, s, r, page, links, put, seen);
    } else {
      var e := Owner(s.nodes[r].table, page).value;
      PeerIsEntry(cfg, s, r, e);
      if e.id in s.nodes {
        TraceEvolves(cfg, s, e.id, page, Rest(links), put, seen + {r}, id);
        TraceElsewhere(cfg, s, r, page, links, put, seen, e, id);
      }
    }
  }

  /** At other nodes a request does what the forward of it does there, or nothing. */
  lemma TraceElsewhere(cfg: Config, s: System, r: NodeId, page: u32, links: seq<Link>, put: bool, seen: set<NodeId>,
                       e: Member, id: NodeId)
    requires r in s.nodes && r !in seen && id in s.nodes && id != r && Owner(s.nodes[r].table, page) == Some(e)
    requires PeerOf(cfg, s, s.nodes[r], e) == Some(e.id)
    ensures var s' := Trace(cfg, s, r, page, links, put, seen);
            || s'.nodes[id] == s.nodes[id]
            || s'.nodes[id] == Trace(cfg, s, e.id, page, Rest(links), put, seen + {r}).nodes[id]
  {
  }

  lemma TraceHere(cfg: Config, s: System, id: NodeId, page: u32, links: seq<Link>, put: bool, seen: set<NodeId>)
    requires SystemOk(cfg, s) && DistinctEndpoints(cfg) && id in s.nodes
    ensures Evolves(id, s.nodes[id], Trace(cfg, s, id, page, links, put, seen).nodes[id])
  {
    var n, s' := s.nodes[id], Trace(cfg, s, id, page, links, put, seen);
    StaysSame(cfg, id, n);
    if s'.nodes[id] != n {
      var e := Owner(n.table, page).value;
      PeerIsEntry(cfg, s, id, e);
      var c := Conn(e.id, HealthAfter(Meets(n, e.id, links), Visit(cfg, s, id, page, links, put, seen)));
      assert s'.nodes[id] == n.(peers := n.peers[Find(n.table, e.id) := c]);
      PeerMarked(cfg, id, n, Find(n.table, e.id), c);
    }
  }

  lemma PeerMarked(cfg: Config, id: NodeId, n: Node, i: nat, c: Conn)
    requires NodeOk(cfg, id, n) && i < |n.table| && c.peer == n.table[i].id
    requires i in n.peers ==> NoBetter(n.peers[i].health, c.health)
    ensures Evolves(id, n, n.(peers := n.peers[i := c]))
  {
  }

  lemma PutEvolves(cfg: Config, s: System, r: NodeId, page: u32, data: Page, links: seq<Link>, id: NodeId)
    requires SystemOk(cfg, s) && DistinctEndpoints(cfg) && id in s.nodes
    ensures var s' := Next(cfg, s, PutPage(r, page, data, links));
            id in s'.nodes && Evolves(id, s.nodes[id], s'.nodes[id])
  {
    var t := Trace(cfg, s, r, page, links, true, {});
    TraceEvolves(cfg, s, r, page, links, true, {}, id);
    var s' := Next(cfg, s, PutPage(r, page, data, links));
    assert s'.nodes[id] == t.nodes[id].(storage := s'.nodes[id].storage);
  }

  lemma EvolvesTrans(s: System, t: System, u: System)
    requires SystemEvolves(s, t) && SystemEvolves(t, u)
    ensures SystemEvolves(s, u)
  {
    forall id | id in s.nodes
      ensures id in u.nodes && Evolves(id, s.nodes[id], u.nodes[id])
    {
      assert Evolves(id, s.nodes[id], t.nodes[id]) && Evolves(id, t.nodes[id], u.nodes[id]);
    }
  }

  /**
   Membership over every run: from any point k on, ids stay distinct and within capacity,
   no index changes its id, incarnations do not fall, cached connections keep leading to
   the id of their index, and a node's own entry stays alive.
   */
  lemma {:induction false} MembershipEvolves(cfg: Config, acts: seq<Action>, k: nat)
    requires DistinctEndpoints(cfg) && k <= |acts|
    ensures SystemEvolves(Behave(cfg, acts[..k]), Behave(cfg, acts))
    decreases |acts|
  {
    var n := |acts|;
    if k == n {
      assert acts[..k] == acts;
      BehaveOk(cfg, acts);
    } else {
      MembershipEvolves(cfg, acts[..n - 1], k);
      assert acts[..n - 1][..k] == acts[..k];
      BehaveOk(cfg, acts[..n - 1]);
      NextEvolves(cfg, Behave(cfg, acts[..n - 1]), acts[n - 1]);
      EvolvesTrans(Behave(cfg, acts[..k]), Behave(cfg, acts[..n - 1]), Behave(cfg, acts));
    }
  }
}
