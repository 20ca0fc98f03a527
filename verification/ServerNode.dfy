/**
 The request loop of one server and the cluster's request semantics are the same thing:
 what a node of the cluster answers, and when it acknowledges, is what its loop does with
 the request and the outcome of its forward.
 */
module ServerNode {
  import opened Base
  import opened GossipCodec
  import opened Membership
  import opened ClusterSystem
  import opened Rpc

  function ServerOf(n: Node): Server {
    Server(n.storage, Some((n.self.rangeStart, n.self.rangeEnd)))
  }

  /** How a forward goes: to a peer, not at all, or out to wait for good. */
  datatype Way = To(next: NodeId) | NoWay | Waits

  ghost function WayOut(cfg: Config, s: System, id: NodeId, page: u32, links: seq<Link>): Way
    requires id in s.nodes
  {
    var n := s.nodes[id];
    match Owner(n.table, page)
    case None => NoWay
    case Some(e) =>
      match PeerOf(cfg, s, n, e)
      case None => NoWay
      case Some(next) =>
        if HealthOf(n, e.id).Broken? || !Meets(n, e.id, links).Works? then NoWay
        else if HealthOf(n, e.id).Stuck? then Waits
        else To(next)
  }

  /** The page a node answers a GET with while the nodes in `seen` wait for it. */
  ghost function ReplyOf(cfg: Config, s: System, id: NodeId, page: u32, links: seq<Link>,
                         seen: set<NodeId>): Option<Page> {
    PageFor(s, page, Visit(cfg, s, id, page, links, false, seen))
  }

  /** `cluster_forward_get`: over a working link whatever the peer itself replies; None if it never returns. */
  ghost function ForwardGet(cfg: Config, s: System, id: NodeId, page: u32, links: seq<Link>,
                            seen: set<NodeId>): Option<Forward>
    requires id in s.nodes
  {
    match WayOut(cfg, s, id, page, links)
    case NoWay => Some(Unreachable)
    case Waits => None
    case To(next) =>
      var there := ReplyOf(cfg, s, next, page, Rest(links), seen + {id});
      if there.None? then None else Some(Fetched(there.value))
  }

  /** `cluster_forward_put`: accepted when the link works and the peer acknowledges; None if it never returns. */
  ghost function ForwardPut(cfg: Config, s: System, id: NodeId, page: u32, links: seq<Link>,
                            seen: set<NodeId>): Option<Forward>
    requires id in s.nodes
  {
    match WayOut(cfg, s, id, page, links)
    case NoWay => Some(Unreachable)
    case Waits => None
    case To(next) => if Visit(cfg, s, next, page, Rest(links), true, seen + {id}).Served? then Some(Accepted) else None
  }

  /** Whoever serves a request does so from its own storage. */
  lemma {:induction false} ServerServes(cfg: Config, s: System, id: NodeId, page: u32, links: seq<Link>, put: bool,
                                        seen: set<NodeId>)
    ensures var f := Visit(cfg, s, id, page, links, put, seen);
            f.Served? ==> f.server in s.nodes && ServesHere(s.nodes[f.server], page)
    decreases s.nodes.Keys - seen
  {
    if id !in s.nodes || ServesHere(s.nodes[id], page) || id in seen {
    } else {
      var way := WayOut(cfg, s, id, page, links);
      if way.To? { ServerServes(cfg, s, way.next, page, Rest(links), put, seen + {id}); }
    }
  }

  /**
   The loop answers a GET with the cluster's reply, through any chain of forwards: from its
   own storage, with what its forward gives it, or never if the forward never returns.
   */
  lemma LoopAnswersGet(cfg: Config, s: System, id: NodeId, page: u32, links: seq<Link>, seen: set<NodeId>)
    requires id in s.nodes && id !in seen
    ensures ServesHere(s.nodes[id], page) ==>
              forall fwd :: Handle(ServerOf(s.nodes[id]), Get(page), fwd) ==
                            (ServerOf(s.nodes[id]), ReplyOf(cfg, s, id, page, links, seen))
    ensures !ServesHere(s.nodes[id], page) ==>
              match ForwardGet(cfg, s, id, page, links, seen)
              case None => ReplyOf(cfg, s, id, page, links, seen) == None
              case Some(fwd) => Handle(ServerOf(s.nodes[id]), Get(page), fwd) ==
                                (ServerOf(s.nodes[id]), ReplyOf(cfg, s, id, page, links, seen))
  {
    ServerServes(cfg, s, id, page, links, false, seen);
    var way := WayOut(cfg, s, id, page, links);
    if way.To? {
      ServerServes(cfg, s, way.next, page, Rest(links), false, seen + {id});
    }
  }

  /** Does the loop acknowledge a PUT, its forward, if it needs one, having gone like this? */
  ghost predicate LoopAcks(n: Node, page: u32, data: Page, fwd: Option<Forward>) {
    if ServesHere(n, page) then Handle(ServerOf(n), Put(page, data), Unreachable).1 == Some(MakeHeader(OP_ACK, page))
    else fwd.Some? && Handle(ServerOf(n), Put(page, data), fwd.value).1 == Some(MakeHeader(OP_ACK, page))
  }

  /**
   The loop acknowledges a PUT exactly when the cluster does, and the node's own storage
   then is what the cluster's step makes it.
   */
  lemma LoopAnswersPut(cfg: Config, s: System, id: NodeId, page: u32, data: Page, links: seq<Link>)
    requires id in s.nodes
    ensures LoopAcks(s.nodes[id], page, data, ForwardPut(cfg, s, id, page, links, {})) <==>
            Acked(cfg, s, id, page, links)
    ensures var s' := Next(cfg, s, PutPage(id, page, data, links));
            && id in s'.nodes
            && (ServesHere(s.nodes[id], page) ==>
                  ServerOf(s'.nodes[id]) == Handle(ServerOf(s.nodes[id]), Put(page, data), Unreachable).0)
            && (!ServesHere(s.nodes[id], page) ==> ServerOf(s'.nodes[id]) == ServerOf(s.nodes[id]))
  {
    LandsServes(cfg, s, id, page, links, {});
    var way := WayOut(cfg, s, id, page, links);
    if way.To? {
      ServerServes(cfg, s, way.next, page, Rest(links), true, {} + {id});
    }
  }

  lemma {:induction false} LandsServes(cfg: Config, s: System, id: NodeId, page: u32, links: seq<Link>,
                                       seen: set<NodeId>)
    ensures var o := Lands(cfg, s, id, page, links, seen);
            o.Some? ==> o.value in s.nodes && ServesHere(s.nodes[o.value], page)
    decreases s.nodes.Keys - seen
  {
    if id !in s.nodes || ServesHere(s.nodes[id], page) || id in seen || Owner(s.nodes[id].table, page).None? {
    } else {
      var next := PeerOf(cfg, s, s.nodes[id], Owner(s.nodes[id].table, page).value);
      if next.Some? { LandsServes(cfg, s, next.value, page, Rest(links), seen + {id}); }
    }
  }
}
