/**
 A cluster of nodes as a transition system. The network keeps every datagram ever sent and
 delivers any of them to any node, any number of times and in any order, or never. Gossip
 steps, heartbeat ticks and client requests interleave freely; each handler is one step.
 */
module ClusterSystem {
  import opened Base
  import opened GossipCodec
  import opened Membership
  import opened FailureDetector

  /**
   What one node is started with. `addr` is the address it gives itself, `source` the one
   its datagrams are seen to come from, which differ on a host with several addresses.
   */
  datatype NodeConfig = NodeConfig(
    addr: u32, source: u32, clientPort: u16, clusterPort: u16,
    rangeStart: u32, rangeEnd: u32, timeout: u32, storagePages: nat)

  type Config = map<NodeId, NodeConfig>

  /**
   A connection works, has broken, or is stuck: the thread at its other end waits for good,
   or has gone without closing it, so nobody will ever answer on it.
   */
  datatype Health = Sound | Broken | Stuck

  /** A cached connection. Nothing closes or replaces it. */
  datatype Conn = Conn(peer: NodeId, health: Health)

  /** `peers` maps a table index to its cached connection. */
  datatype Node = Node(self: Member, table: Table, storage: seq<Page>, peers: map<nat, Conn>)

  datatype Datagram = Datagram(addr: u32, port: u16, bytes: Bytes)

  datatype System = System(nodes: map<NodeId, Node>, net: set<Datagram>)

  /**
   How the connection behaves during a forwarded request: it works, it breaks, and then the
   request may have got through, or no connection comes about.
   */
  datatype Link = Works | Breaks(reached: bool) | Refused

  datatype Action =
    | Start(id: NodeId, now: u64)
    | SendPing(id: NodeId)
    | SendJoin(id: NodeId)
    | Deliver(id: NodeId, d: Datagram, clock: nat -> u64)
    | Heartbeat(id: NodeId, now: u64)
    | GetPage(id: NodeId, page: u32, links: seq<Link>)
    | PutPage(id: NodeId, page: u32, data: Page, links: seq<Link>)

  const EMPTY: System := System(map[], {})

  // ---------- Gossip steps ----------

  /** `cluster_create`: the node's own entry, at incarnation 1. */
  function SelfEntry(c: NodeConfig, id: NodeId, now: u64): Member {
    Member(id, c.addr, c.clientPort, c.clusterPort, c.rangeStart, c.rangeEnd, now, 1, ALIVE)
  }

  function Boot(c: NodeConfig, id: NodeId, now: u64): Node {
    var self := SelfEntry(c, id, now);
    Node(self, [self], seq(c.storagePages, _ => ZERO_PAGE), map[])
  }

  /** A node's datagrams leave from the cluster port it is bound to. */
  function Post(c: NodeConfig, n: Node, m: Message): Datagram
    requires |m.nodes| <= GOSSIP_MSG_MAX_NODES
  {
    Datagram(c.source, n.self.clusterPort, Encode(m))
  }

  /** The table after `handle_gossip_msg` has merged a parsed message, reading the clock at each merge. */
  function Heard(c: NodeConfig, n: Node, m: Message, d: Datagram, clock: nat -> u64): Node {
    n.(table := Run(n.table, 0, c.timeout, Mentions(m, d.addr, d.port, clock)))
  }

  /** One datagram handled: merged if it parses, and answered if it is a PING or a JOIN. */
  function Received(c: NodeConfig, s: System, id: NodeId, d: Datagram, clock: nat -> u64): System
    requires id in s.nodes
  {
    match Parse(d.bytes)
    case None => s
    case Some(m) =>
      var n := Heard(c, s.nodes[id], m, d, clock);
      System(s.nodes[id := n],
             if m.kind == PING || m.kind == JOIN then s.net + {Post(c, n, Pong(n.self, n.table))} else s.net)
  }

  // ---------- Requests ----------

  predicate IsLocal(n: Node, page: u32) {
    n.self.rangeStart <= page < n.self.rangeEnd
  }

  /** Is the request answered from this node's own storage? */
  predicate ServesHere(n: Node, page: u32) {
    IsLocal(n, page) && page < |n.storage|
  }

  /** Both of a node's addresses lead to it. */
  ghost predicate ListensAt(cfg: Config, id: NodeId, addr: u32, port: u16) {
    id in cfg && (addr == cfg[id].addr || addr == cfg[id].source) && port == cfg[id].clientPort
  }

  /** The node listening for clients at an address. */
  ghost function Listener(cfg: Config, s: System, addr: u32, port: u16): Option<NodeId> {
    if exists id :: id in s.nodes && ListensAt(cfg, id, addr, port) then
      var id :| id in s.nodes && ListensAt(cfg, id, addr, port);
      Some(id)
    else None
  }

  /** Has the node a connection cached for o? */
  predicate Cached(n: Node, o: NodeId) {
    Find(n.table, o) in n.peers
  }

  /** The state of the connection for o, one still to be made included. */
  function HealthOf(n: Node, o: NodeId): Health {
    if Cached(n, o) then n.peers[Find(n.table, o)].health else Sound
  }

  /** Whom the connection of `get_peer_connection` leads to: the one cached under the entry's index, else a new one. */
  ghost function PeerOf(cfg: Config, s: System, n: Node, e: Member): Option<NodeId> {
    if Find(n.table, e.id) < 0 then None
    else if Cached(n, e.id) then Some(n.peers[Find(n.table, e.id)].peer)
    else Listener(cfg, s, e.addr, e.clientPort)
  }

  /** How a request's first forward fares. One past the end of the list works, and only a new connection is refused. */
  function Meets(n: Node, o: NodeId, links: seq<Link>): Link {
    var link := if links == [] then Works else links[0];
    if link.Refused? && Cached(n, o) then Works else link
  }

  function Rest(links: seq<Link>): seq<Link> {
    if links == [] then [] else links[1..]
  }

  /** How a request ends at the node it is made at: served from a node's storage, given up, or never. */
  datatype Fate = Served(server: NodeId) | Failed | Silent

  /**
   A request handled at `id`, with one link for each forward, while the nodes in `seen` wait
   for it. A node it comes back to forwards it once more on the connection that its own
   earlier forward is waiting on, so nobody ever answers. A GET whose forward fails is
   answered with zeros; a PUT whose forward fails is not answered at all, and the connection
   it came on is left open.
   */
  ghost function Visit(cfg: Config, s: System, id: NodeId, page: u32, links: seq<Link>, put: bool,
                       seen: set<NodeId>): Fate
    decreases s.nodes.Keys - seen
  {
    if id !in s.nodes then Silent
    else if ServesHere(s.nodes[id], page) then Served(id)
    else if id in seen then Silent
    else
      var n := s.nodes[id];
      match Owner(n.table, page)
      case None => Failed
      case Some(e) =>
        match PeerOf(cfg, s, n, e)
        case None => Failed
        case Some(next) =>
          if HealthOf(n, e.id).Broken? || !Meets(n, e.id, links).Works? then Failed
          else if HealthOf(n, e.id).Stuck? then Silent
          else
            var there := Visit(cfg, s, next, page, Rest(links), put, seen + {id});
            if put && there.Failed? then Silent else there
  }

  /** The node whose storage a request gets to, even over a link that then breaks. */
  ghost function Lands(cfg: Config, s: System, id: NodeId, page: u32, links: seq<Link>,
                       seen: set<NodeId>): Option<NodeId>
    decreases s.nodes.Keys - seen
  {
    if id !in s.nodes then None
    else if ServesHere(s.nodes[id], page) then Some(id)
    else if id in seen then None
    else
      var n := s.nodes[id];
      match Owner(n.table, page)
      case None => None
      case Some(e) =>
        match PeerOf(cfg, s, n, e)
        case None => None
        case Some(next) =>
          var link := Meets(n, e.id, links);
          if !HealthOf(n, e.id).Sound? || link == Breaks(false) || link.Refused? then None
          else Lands(cfg, s, next, page, Rest(links), seen + {id})
  }

  /** The page a GET is answered with: zeros if a forward failed, and none if it is never answered. */
  function PageFor(s: System, page: u32, fate: Fate): Option<Page> {
    match fate
    case Served(o) => if o in s.nodes && page < |s.nodes[o].storage| then Some(s.nodes[o].storage[page]) else None
    case Failed => Some(ZERO_PAGE)
    case Silent => None
  }

  ghost function Reply(cfg: Config, s: System, id: NodeId, page: u32, links: seq<Link>): Option<Page> {
    PageFor(s, page, Visit(cfg, s, id, page, links, false, {}))
  }

  /** The node a PUT is stored at: it gets there unless a link breaks before. */
  ghost function StoredAt(cfg: Config, s: System, id: NodeId, page: u32, links: seq<Link>): Option<NodeId> {
    Lands(cfg, s, id, page, links, {})
  }

  /** The client sees an ACK only for a local write or a forward that was acknowledged. */
  ghost predicate Acked(cfg: Config, s: System, id: NodeId, page: u32, links: seq<Link>) {
    Visit(cfg, s, id, page, links, true, {}).Served?
  }

  function Marked(s: System, id: NodeId, o: NodeId, c: Conn): System
    requires id in s.nodes && Find(s.nodes[id].table, o) >= 0
  {
    s.(nodes := s.nodes[id := s.nodes[id].(peers := s.nodes[id].peers[Find(s.nodes[id].table, o) := c])])
  }

  /** State s' differs from s in connections alone, and not in those of the nodes in `seen`. */
  ghost predicate OnlyConns(s: System, s': System, seen: set<NodeId>) {
    && s'.net == s.net && s'.nodes.Keys == s.nodes.Keys
    && forall o :: o in s.nodes ==>
         && s'.nodes[o] == s.nodes[o].(peers := s'.nodes[o].peers)
         && (o in seen ==> s'.nodes[o] == s.nodes[o])
  }

  /** What handling a request leaves in the connections it was forwarded on. */
  ghost function Trace(cfg: Config, s: System, id: NodeId, page: u32, links: seq<Link>, put: bool,
                       seen: set<NodeId>): (s': System)
    ensures OnlyConns(s, s', seen)
    decreases s.nodes.Keys - seen
  {
    if id !in s.nodes || ServesHere(s.nodes[id], page) || id in seen then s
    else
      var n := s.nodes[id];
      match Owner(n.table, page)
      case None => s
      case Some(e) =>
        match PeerOf(cfg, s, n, e)
        case None => s
        case Some(next) =>
          var link := Meets(n, e.id, links);
          if HealthOf(n, e.id).Broken? || link.Refused? then s
          else
            var t := if HealthOf(n, e.id).Stuck? || link == Breaks(false) then s
                     else Trace(cfg, s, next, page, Rest(links), put, seen + {id});
            Marked(t, id, e.id, Conn(next, HealthAfter(link, Visit(cfg, s, id, page, links, put, seen))))
  }

  function HealthAfter(link: Link, fate: Fate): Health {
    if link.Breaks? then Broken else if fate.Silent? then Stuck else Sound
  }

  /** A page written at the node a PUT gets to. */
  function PutAt(s: System, at: Option<NodeId>, page: u32, data: Page): System {
    if at.Some? && at.value in s.nodes && page < |s.nodes[at.value].storage| then
      var n := s.nodes[at.value];
      s.(nodes := s.nodes[at.value := n.(storage := n.storage[page := data])])
    else s
  }

  // ---------- The transition system ----------

  /** A step that is not enabled changes nothing. */
  ghost function Next(cfg: Config, s: System, a: Action): System {
    match a
    case Start(id, now) =>
      if id in cfg && id !in s.nodes then s.(nodes := s.nodes[id := Boot(cfg[id], id, now)]) else s
    case SendPing(id) =>
      if id in s.nodes && id in cfg then s.(net := s.net + {Post(cfg[id], s.nodes[id], Ping(s.nodes[id].self))}) else s
    case SendJoin(id) =>
      if id in s.nodes && id in cfg then s.(net := s.net + {Post(cfg[id], s.nodes[id], Join(s.nodes[id].self))}) else s
    case Deliver(id, d, clock) =>
      if id in s.nodes && id in cfg && d in s.net then Received(cfg[id], s, id, d, clock) else s
    case Heartbeat(id, now) =>
      if id in s.nodes && id in cfg then
        var n := s.nodes[id];
        s.(nodes := s.nodes[id := n.(table := Age(n.table, 0, now, cfg[id].timeout))])
      else s
    case GetPage(id, page, links) => Trace(cfg, s, id, page, links, false, {})
    case PutPage(id, page, data, links) =>
      PutAt(Trace(cfg, s, id, page, links, true, {}), StoredAt(cfg, s, id, page, links), page, data)
  }

  /** A request changes no table. */
  lemma RequestKeepsTables(cfg: Config, s: System, a: Action, o: NodeId)
    requires (a.GetPage? || a.PutPage?) && o in s.nodes
    ensures o in Next(cfg, s, a).nodes && Next(cfg, s, a).nodes[o].table == s.nodes[o].table
  {
    assert OnlyConns(s, Trace(cfg, s, a.id, a.page, a.links, a.PutPage?, {}), {});
  }

  ghost function Behave(cfg: Config, acts: seq<Action>): System {
    if acts == [] then EMPTY
    else Next(cfg, Behave(cfg, acts[..|acts| - 1]), acts[|acts| - 1])
  }

  // ---------- What every reachable state satisfies ----------

  /** An entry tells the truth about its id: one of its addresses, configured ports and range, incarnation 1. */
  ghost predicate Truthful(cfg: Config, e: Member) {
    && e.id in cfg
    && var c := cfg[e.id];
       && (e.addr == c.addr || e.addr == c.source) && e.clientPort == c.clientPort && e.clusterPort == c.clusterPort
       && e.rangeStart == c.rangeStart && e.rangeEnd == c.rangeEnd
       && e.incarnation == 1 && KnownState(e)
  }

  ghost predicate TrueTable(cfg: Config, id: NodeId, t: Table) {
    && TableOk(t) && |t| >= 1 && t[0].id == id && t[0].state == ALIVE
    && forall i :: 0 <= i < |t| ==> Truthful(cfg, t[i])
  }

  ghost predicate TrueMessage(cfg: Config, m: Message, d: Datagram) {
    && |m.nodes| <= GOSSIP_MSG_MAX_NODES
    && Truthful(cfg, Sender(m, d.addr, d.port))
    && forall i :: 0 <= i < |m.nodes| ==> Truthful(cfg, FromWire(m.nodes[i]))
  }

  ghost predicate Genuine(cfg: Config, d: Datagram) {
    Parse(d.bytes).Some? && TrueMessage(cfg, Parse(d.bytes).value, d)
  }

  /** A page outside the node's own range is never written. */
  ghost predicate OnlyOwnPages(n: Node) {
    forall p :: 0 <= p < |n.storage| && !(n.self.rangeStart <= p < n.self.rangeEnd) ==> n.storage[p] == ZERO_PAGE
  }

  ghost predicate NodeOk(cfg: Config, id: NodeId, n: Node) {
    && id in cfg
    && Truthful(cfg, n.self) && n.self.id == id && n.self.state == ALIVE
    && TrueTable(cfg, id, n.table)
    && |n.storage| == cfg[id].storagePages
    && OnlyOwnPages(n)
    && (forall i :: i in n.peers ==> i < |n.table| && n.peers[i].peer == n.table[i].id)
  }

  /** Connections are to running nodes. */
  ghost predicate PeersRun(s: System, n: Node) {
    forall i :: i in n.peers ==> n.peers[i].peer in s.nodes
  }

  ghost predicate SystemOk(cfg: Config, s: System) {
    && (forall id :: id in s.nodes ==> NodeOk(cfg, id, s.nodes[id]) && PeersRun(s, s.nodes[id]))
    && (forall d :: d in s.net ==> Genuine(cfg, d))
  }

  /** Client endpoints are distinct, so an address leads to one node. */
  ghost predicate DistinctEndpoints(cfg: Config) {
    forall a, b, addr, port :: ListensAt(cfg, a, addr, port) && ListensAt(cfg, b, addr, port) ==> a == b
  }

  // ---------- Gossip keeps the truth ----------

  lemma MergeTruth(cfg: Config, id: NodeId, t: Table, m: Member, now: u64)
    requires TrueTable(cfg, id, t) && Truthful(cfg, m)
    ensures TrueTable(cfg, id, Merge(t, m, now)) && Extends(t, Merge(t, m, now))
  {
    MergeKeeps(t, m, now);
  }

  ghost predicate TrueMentions(cfg: Config, evs: seq<Event>) {
    forall i :: 0 <= i < |evs| ==> evs[i].Mention? && Truthful(cfg, evs[i].m)
  }

  lemma {:induction false} RunTruth(cfg: Config, id: NodeId, t: Table, timeout: u32, evs: seq<Event>)
    requires TrueTable(cfg, id, t) && TrueMentions(cfg, evs)
    ensures TrueTable(cfg, id, Run(t, 0, timeout, evs)) && Extends(t, Run(t, 0, timeout, evs))
  {
    if evs == [] {
    } else {
      var k := |evs| - 1;
      RunTruth(cfg, id, t, timeout, evs[..k]);
      MergeTruth(cfg, id, Run(t, 0, timeout, evs[..k]), evs[k].m, evs[k].now);
    }
  }

  lemma AgeTruth(cfg: Config, id: NodeId, t: Table, now: u64, timeout: u32)
    requires TrueTable(cfg, id, t)
    ensures TrueTable(cfg, id, Age(t, 0, now, timeout)) && Extends(t, Age(t, 0, now, timeout))
  {
    AgeKeeps(t, 0, now, timeout);
  }

  lemma PostParses(c: NodeConfig, n: Node, m: Message)
    requires |m.nodes| <= GOSSIP_MSG_MAX_NODES
    ensures Parse(Post(c, n, m).bytes) == Some(m)
  {
    ParseEncode(m, []);
    assert Encode(m) + [] == Encode(m);
  }

  /** What a good node sends is genuine, at byte level. */
  lemma PostGenuine(cfg: Config, id: NodeId, n: Node, m: Message)
    requires NodeOk(cfg, id, n) && |m.nodes| <= GOSSIP_MSG_MAX_NODES
    requires m == FromSelf(n.self, m.kind, m.nodes)
    requires forall i :: 0 <= i < |m.nodes| ==> Truthful(cfg, FromWire(m.nodes[i]))
    ensures Genuine(cfg, Post(cfg[id], n, m))
  {
    PostParses(cfg[id], n, m);
  }

  lemma PongGenuine(cfg: Config, id: NodeId, n: Node)
    requires NodeOk(cfg, id, n)
    ensures Genuine(cfg, Post(cfg[id], n, Pong(n.self, n.table)))
  {
    PostGenuine(cfg, id, n, Pong(n.self, n.table));
  }

  lemma HeardOk(cfg: Config, id: NodeId, n: Node, m: Message, d: Datagram, clock: nat -> u64)
    requires NodeOk(cfg, id, n) && TrueMessage(cfg, m, d)
    ensures NodeOk(cfg, id, Heard(cfg[id], n, m, d, clock))
    ensures Extends(n.table, Heard(cfg[id], n, m, d, clock).table)
  {
    RunTruth(cfg, id, n.table, cfg[id].timeout, Mentions(m, d.addr, d.port, clock));
  }

  // ---------- Routing in a truthful system ----------

  lemma ListenerIs(cfg: Config, s: System, id: NodeId, addr: u32, port: u16)
    requires DistinctEndpoints(cfg) && ListensAt(cfg, id, addr, port)
    ensures Listener(cfg, s, addr, port) == if id in s.nodes then Some(id) else None
  {
  }

  /** A connection made for a table entry leads to the entry's own node. */
  lemma PeerIsEntry(cfg: Config, s: System, id: NodeId, e: Member)
    requires SystemOk(cfg, s) && DistinctEndpoints(cfg) && id in s.nodes && e in s.nodes[id].table
    ensures PeerOf(cfg, s, s.nodes[id], e) == if e.id in s.nodes then Some(e.id) else None
  {
    var n := s.nodes[id];
    var i :| 0 <= i < |n.table| && n.table[i] == e;
    assert Find(n.table, e.id) == i;
    assert Truthful(cfg, e);
    ListenerIs(cfg, s, e.id, e.addr, e.clientPort);
  }

  ghost predicate InRange(cfg: Config, o: NodeId, page: int) {
    o in cfg && cfg[o].rangeStart <= page < cfg[o].rangeEnd
  }

  /** Whoever serves a page or is written to is configured to own it, however many forwards it took. */
  lemma {:induction false} ServerOwns(cfg: Config, s: System, id: NodeId, page: u32, links: seq<Link>, put: bool,
                                      seen: set<NodeId>)
    requires SystemOk(cfg, s) && DistinctEndpoints(cfg)
    ensures var f := Visit(cfg, s, id, page, links, put, seen);
            f.Served? ==> f.server in s.nodes && InRange(cfg, f.server, page) && page < |s.nodes[f.server].storage|
    ensures var o := Lands(cfg, s, id, page, links, seen);
            o.Some? ==> o.value in s.nodes && InRange(cfg, o.value, page) && page < |s.nodes[o.value].storage|
    decreases s.nodes.Keys - seen
  {
    if id !in s.nodes || ServesHere(s.nodes[id], page) || id in seen {
    } else {
      var e := Owner(s.nodes[id].table, page);
      if e.Some? {
        var next := PeerOf(cfg, s, s.nodes[id], e.value);
        if next.Some? { ServerOwns(cfg, s, next.value, page, Rest(links), put, seen + {id}); }
      }
    }
  }

  /** An acknowledged request got there. */
  lemma {:induction false} ServedLands(cfg: Config, s: System, id: NodeId, page: u32, links: seq<Link>, put: bool,
                                       seen: set<NodeId>)
    ensures var f := Visit(cfg, s, id, page, links, put, seen);
            f.Served? ==> Lands(cfg, s, id, page, links, seen) == Some(f.server)
    decreases s.nodes.Keys - seen
  {
    if id !in s.nodes || ServesHere(s.nodes[id], page) || id in seen {
    } else {
      var e := Owner(s.nodes[id].table, page);
      if e.Some? {
        var next := PeerOf(cfg, s, s.nodes[id], e.value);
        if next.Some? { ServedLands(cfg, s, next.value, page, Rest(links), put, seen + {id}); }
      }
    }
  }

  // ---------- Every step keeps the system in order ----------

  lemma NodeStepOk(cfg: Config, s: System, id: NodeId, n: Node)
    requires SystemOk(cfg, s) && NodeOk(cfg, id, n) && PeersRun(s, n)
    ensures SystemOk(cfg, s.(nodes := s.nodes[id := n]))
  {
  }

  lemma ReceivedOk(cfg: Config, s: System, id: NodeId, d: Datagram, clock: nat -> u64)
    requires SystemOk(cfg, s) && id in s.nodes && d in s.net
    ensures id in cfg && SystemOk(cfg, Received(cfg[id], s, id, d, clock))
  {
    var m := Parse(d.bytes).value;
    HeardOk(cfg, id, s.nodes[id], m, d, clock);
    var n := Heard(cfg[id], s.nodes[id], m, d, clock);
    NodeStepOk(cfg, s, id, n);
    PongGenuine(cfg, id, n);
  }

  lemma PutAtOk(cfg: Config, s: System, at: Option<NodeId>, page: u32, data: Page)
    requires SystemOk(cfg, s) && (at.Some? ==> InRange(cfg, at.value, page))
    ensures SystemOk(cfg, PutAt(s, at, page, data))
  {
    if at.Some? && at.value in s.nodes && page < |s.nodes[at.value].storage| {
      var n := s.nodes[at.value];
      NodeStepOk(cfg, s, at.value, n.(storage := n.storage[page := data]));
    }
  }

  lemma MarkedOk(cfg: Config, s: System, id: NodeId, e: Member, h: Health)
    requires SystemOk(cfg, s) && id in s.nodes && e in s.nodes[id].table && e.id in s.nodes
    ensures Find(s.nodes[id].table, e.id) >= 0
    ensures SystemOk(cfg, Marked(s, id, e.id, Conn(e.id, h)))
  {
    var n := s.nodes[id];
    NodeStepOk(cfg, s, id, n.(peers := n.peers[Find(n.table, e.id) := Conn(e.id, h)]));
  }

  lemma {:induction false} TraceOk(cfg: Config, s: System, id: NodeId, page: u32, links: seq<Link>, put: bool,
                                   seen: set<NodeId>)
    requires SystemOk(cfg, s) && DistinctEndpoints(cfg)
    ensures SystemOk(cfg, Trace(cfg, s, id, page, links, put, seen))
    decreases s.nodes.Keys - seen
  {
    if id !in s.nodes || ServesHere(s.nodes[id], page) || id in seen || Owner(s.nodes[id].table, page).None? {
    } else {
      var e := Owner(s.nodes[id].table, page).value;
      PeerIsEntry(cfg, s, id, e);
      if e.id in s.nodes {
        var t := Trace(cfg, s, e.id, page, Rest(links), put, seen + {id});
        TraceOk(cfg, s, e.id, page, Rest(links), put, seen + {id});
        var fate := Visit(cfg, s, id, page, links, put, seen);
        MarkedOk(cfg, s, id, e, HealthAfter(Meets(s.nodes[id], e.id, links), fate));
        MarkedOk(cfg, t, id, e, HealthAfter(Meets(s.nodes[id], e.id, links), fate));
      }
    }
  }

  lemma NextOk(cfg: Config, s: System, a: Action)
    requires SystemOk(cfg, s) && DistinctEndpoints(cfg)
    ensures SystemOk(cfg, Next(cfg, s, a))
  {
    match a
    case Start(id, now) =>
      if id in cfg && id !in s.nodes {
        NodeStepOk(cfg, s, id, Boot(cfg[id], id, now));
      }
    case SendPing(id) =>
      if id in s.nodes { PostGenuine(cfg, id, s.nodes[id], Ping(s.nodes[id].self)); }
    case SendJoin(id) =>
      if id in s.nodes { PostGenuine(cfg, id, s.nodes[id], Join(s.nodes[id].self)); }
    case Deliver(id, d, clock) =>
      if id in s.nodes && d in s.net { ReceivedOk(cfg, s, id, d, clock); }
    case Heartbeat(id, now) =>
      if id in s.nodes {
        AgeTruth(cfg, id, s.nodes[id].table, now, cfg[id].timeout);
        NodeStepOk(cfg, s, id, s.nodes[id].(table := Age(s.nodes[id].table, 0, now, cfg[id].timeout)));
      }
    case GetPage(id, page, links) => TraceOk(cfg, s, id, page, links, false, {});
    case PutPage(id, page, data, links) =>
      TraceOk(cfg, s, id, page, links, true, {});
      ServerOwns(cfg, s, id, page, links, true, {});
      PutAtOk(cfg, Trace(cfg, s, id, page, links, true, {}), StoredAt(cfg, s, id, page, links), page, data);
  }

  lemma {:induction false} BehaveOk(cfg: Config, acts: seq<Action>)
    requires DistinctEndpoints(cfg)
    ensures SystemOk(cfg, Behave(cfg, acts))
  {
    if acts == [] {
    } else {
      BehaveOk(cfg, acts[..|acts| - 1]);
      NextOk(cfg, Behave(cfg, acts[..|acts| - 1]), acts[|acts| - 1]);
    }
  }
}
