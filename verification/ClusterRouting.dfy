/**
 Where requests go in a running cluster: agreement on who owns a page, requests that take
 at most one forward, and exactly when one is served, given up, or never answered.
 */
module ClusterRouting {
  import opened Base
  import opened GossipCodec
  import opened Membership
  import opened ClusterSystem

  /** The configured ranges do not overlap. */
  ghost predicate DisjointRanges(cfg: Config) {
    forall a, b, p :: InRange(cfg, a, p) && InRange(cfg, b, p) ==> a == b
  }

  /** Every node has storage for all the pages it owns. */
  ghost predicate RangesFit(cfg: Config) {
    forall id :: id in cfg ==> cfg[id].rangeEnd <= cfg[id].storagePages
  }

  // ---------- Agreement ----------

  /**
   Gossip agreement on ownership: at any node of any run, under any loss, duplication and
   reordering, the owner looked up for a page is the one configured owner, or nobody.
   */
  lemma OwnershipAgreement(cfg: Config, acts: seq<Action>, id: NodeId, page: u32)
    requires DistinctEndpoints(cfg) && DisjointRanges(cfg) && id in Behave(cfg, acts).nodes
    ensures match Owner(Behave(cfg, acts).nodes[id].table, page)
            case None => true
            case Some(e) => Truthful(cfg, e) && forall o :: InRange(cfg, o, page) <==> o == e.id
  {
    BehaveOk(cfg, acts);
    var t := Behave(cfg, acts).nodes[id].table;
    var e := Owner(t, page);
    if e.Some? {
      var i :| 0 <= i < |t| && t[i] == e.value;
      assert InRange(cfg, e.value.id, page);
    }
  }

  /** Every datagram in flight, however old, parses and tells the truth. */
  lemma MessagesTellTheTruth(cfg: Config, acts: seq<Action>, d: Datagram)
    requires DistinctEndpoints(cfg) && d in Behave(cfg, acts).net
    ensures Parse(d.bytes).Some? && TrueMessage(cfg, Parse(d.bytes).value, d)
  {
    BehaveOk(cfg, acts);
  }

  // ---------- Requests, node by node ----------

  /** A table that leads to the page's owner: it has an entry for it, not dead, and the owner runs. */
  ghost predicate KnowsOwner(s: System, id: NodeId, page: u32, o: NodeId) {
    && id in s.nodes && o in s.nodes
    && exists e :: e in s.nodes[id].table && e.id == o && Owns(e, page)
  }

  lemma LookupFinds(cfg: Config, s: System, id: NodeId, page: u32, o: NodeId)
    requires SystemOk(cfg, s) && DisjointRanges(cfg) && InRange(cfg, o, page) && id in s.nodes
    ensures Owner(s.nodes[id].table, page).Some? ==> Owner(s.nodes[id].table, page).value.id == o
    ensures o in s.nodes ==> (KnowsOwner(s, id, page, o) <==> Owner(s.nodes[id].table, page).Some?)
  {
    var t := s.nodes[id].table;
    var e := Owner(t, page);
    if e.Some? {
      var i :| 0 <= i < |t| && t[i] == e.value;
      assert InRange(cfg, e.value.id, page);
    }
  }

  /** Nobody at all owns the page, so nobody is found. */
  lemma NobodyOwns(cfg: Config, s: System, id: NodeId, page: u32)
    requires SystemOk(cfg, s) && id in s.nodes && forall o :: !InRange(cfg, o, page)
    ensures Owner(s.nodes[id].table, page).None? && !ServesHere(s.nodes[id], page)
  {
    assert NodeOk(cfg, id, s.nodes[id]);
    forall i | 0 <= i < |s.nodes[id].table|
      ensures !Owns(s.nodes[id].table[i], page)
    {
      assert Truthful(cfg, s.nodes[id].table[i]) && !InRange(cfg, s.nodes[id].table[i].id, page);
    }
  }

  lemma OwnerKnowsItself(cfg: Config, s: System, o: NodeId, page: u32)
    requires SystemOk(cfg, s) && DisjointRanges(cfg) && InRange(cfg, o, page) && o in s.nodes
    ensures Owner(s.nodes[o].table, page) == Some(s.nodes[o].table[0]) && s.nodes[o].table[0].id == o
  {
  }

  /** A forward from n to o goes out, if only to wait: its connection is not broken or refused and does not break. */
  predicate GoesOut(n: Node, o: NodeId, links: seq<Link>) {
    !HealthOf(n, o).Broken? && Meets(n, o, links).Works?
  }

  /** How a request ends at the page's own owner. */
  lemma OwnerVisit(cfg: Config, s: System, o: NodeId, page: u32, links: seq<Link>, put: bool, seen: set<NodeId>)
    requires SystemOk(cfg, s) && DistinctEndpoints(cfg) && DisjointRanges(cfg)
    requires InRange(cfg, o, page) && o in s.nodes
    ensures Visit(cfg, s, o, page, links, put, seen) ==
            if page < cfg[o].storagePages then Served(o)
            else if o in seen || GoesOut(s.nodes[o], o, links) then Silent
            else Failed
    ensures Lands(cfg, s, o, page, links, seen) == if page < cfg[o].storagePages then Some(o) else None
  {
    assert NodeOk(cfg, o, s.nodes[o]);
    OwnerKnowsItself(cfg, s, o, page);
    PeerIsEntry(cfg, s, o, s.nodes[o].table[0]);
    assert o in seen + {o};
  }

  /** How a request ends at any other node. */
  lemma OtherVisit(cfg: Config, s: System, id: NodeId, page: u32, links: seq<Link>, put: bool, o: NodeId)
    requires SystemOk(cfg, s) && DistinctEndpoints(cfg) && DisjointRanges(cfg)
    requires InRange(cfg, o, page) && id in s.nodes && id != o
    ensures Visit(cfg, s, id, page, links, put, {}) ==
            if !KnowsOwner(s, id, page, o) || !GoesOut(s.nodes[id], o, links) then Failed
            else if HealthOf(s.nodes[id], o).Stuck? then Silent
            else if page < cfg[o].storagePages then Served(o)
            else if put || GoesOut(s.nodes[o], o, Rest(links)) then Silent
            else Failed
    ensures Lands(cfg, s, id, page, links, {}) ==
            if && KnowsOwner(s, id, page, o) && HealthOf(s.nodes[id], o).Sound? && page < cfg[o].storagePages
               && (Meets(s.nodes[id], o, links).Works? || Meets(s.nodes[id], o, links) == Breaks(true))
            then Some(o) else None
  {
    assert NodeOk(cfg, id, s.nodes[id]);
    assert !InRange(cfg, id, page);
    LookupFinds(cfg, s, id, page, o);
    var e := Owner(s.nodes[id].table, page);
    if e.Some? {
      PeerIsEntry(cfg, s, id, e.value);
      if o in s.nodes {
        OwnerVisit(cfg, s, o, page, Rest(links), put, {} + {id});
      }
    }
  }

  /**
   Forwarding is one hop: when the owner's storage covers the page, a request reaches it
   from every node that knows it over a sound connection, with one forward at most, so that
   only the first link matters; a connection that is there already is not made again, and
   cannot be refused.
   */
  lemma OneHop(cfg: Config, s: System, id: NodeId, page: u32, o: NodeId, links: seq<Link>, put: bool)
    requires SystemOk(cfg, s) && DistinctEndpoints(cfg) && DisjointRanges(cfg)
    requires InRange(cfg, o, page) && page < cfg[o].storagePages && links != []
    ensures Visit(cfg, s, id, page, links, put, {}) == Visit(cfg, s, id, page, links[..1], put, {})
    ensures id == o && o in s.nodes ==> Visit(cfg, s, id, page, links, put, {}) == Served(o)
    ensures id != o && KnowsOwner(s, id, page, o) && HealthOf(s.nodes[id], o).Sound? && links[0].Works? ==>
              Visit(cfg, s, id, page, links, put, {}) == Served(o)
    ensures id != o && KnowsOwner(s, id, page, o) && Cached(s.nodes[id], o) && HealthOf(s.nodes[id], o).Sound? &&
            links[0].Refused? ==>
              Visit(cfg, s, id, page, links, put, {}) == Served(o)
  {
    if id !in s.nodes {
    } else if id == o {
      OwnerVisit(cfg, s, o, page, links, put, {});
      OwnerVisit(cfg, s, o, page, links[..1], put, {});
    } else {
      OtherVisit(cfg, s, id, page, links, put, o);
      OtherVisit(cfg, s, id, page, links[..1], put, o);
    }
  }

  /**
   A page its owner has no storage for is never served: the owner's own entry, at index 0
   and never dead, makes it forward the request to itself, where nobody will answer it.
   */
  lemma OwnerForwardsToItself(cfg: Config, s: System, o: NodeId, page: u32, links: seq<Link>, put: bool)
    requires SystemOk(cfg, s) && DistinctEndpoints(cfg) && DisjointRanges(cfg)
    requires InRange(cfg, o, page) && page >= cfg[o].storagePages && o in s.nodes
    ensures Owner(s.nodes[o].table, page).Some?
    ensures PeerOf(cfg, s, s.nodes[o], Owner(s.nodes[o].table, page).value) == Some(o)
    ensures Visit(cfg, s, o, page, links, put, {}) == if GoesOut(s.nodes[o], o, links) then Silent else Failed
  {
    OwnerKnowsItself(cfg, s, o, page);
    PeerIsEntry(cfg, s, o, s.nodes[o].table[0]);
    OwnerVisit(cfg, s, o, page, links, put, {});
  }

  /** A running owner serves its page, however links behave, exactly if its storage covers it. */
  lemma ServedExactlyIfStored(cfg: Config, s: System, o: NodeId, page: u32, links: seq<Link>, put: bool)
    requires SystemOk(cfg, s) && DistinctEndpoints(cfg) && DisjointRanges(cfg)
    requires InRange(cfg, o, page) && o in s.nodes
    ensures Visit(cfg, s, o, page, links, put, {}).Served? <==> page < cfg[o].storagePages
  {
    OwnerVisit(cfg, s, o, page, links, put, {});
  }

  // ---------- How a request ends ----------

  /** Node o can answer a request made at id: its storage covers the page, and it is id or id can reach it. */
  ghost predicate Answers(cfg: Config, s: System, id: NodeId, page: u32, links: seq<Link>, o: NodeId) {
    && InRange(cfg, o, page) && page < cfg[o].storagePages && o in s.nodes && id in s.nodes
    && (o == id
        || (KnowsOwner(s, id, page, o) && HealthOf(s.nodes[id], o).Sound? && Meets(s.nodes[id], o, links).Works?))
  }

  /** A request made at id has somebody to answer it. */
  ghost predicate Answerable(cfg: Config, s: System, id: NodeId, page: u32, links: seq<Link>) {
    exists o :: Answers(cfg, s, id, page, links, o)
  }

  /**
   A request made at id waits for good on the page's owner o: o has no storage for the page
   and waits for itself, or gives a PUT up without a word, or the connection to o is stuck.
   */
  ghost predicate WaitsOn(cfg: Config, s: System, id: NodeId, page: u32, links: seq<Link>, put: bool, o: NodeId) {
    && InRange(cfg, o, page) && o in s.nodes && id in s.nodes && GoesOut(s.nodes[id], o, links)
    && if o == id then page >= cfg[o].storagePages
       else
         && KnowsOwner(s, id, page, o)
         && (|| HealthOf(s.nodes[id], o).Stuck?
             || (page >= cfg[o].storagePages && (put || GoesOut(s.nodes[o], o, Rest(links)))))
  }

  /** A request made at id is never answered. */
  ghost predicate Unanswered(cfg: Config, s: System, id: NodeId, page: u32, links: seq<Link>, put: bool) {
    id !in s.nodes || exists o :: WaitsOn(cfg, s, id, page, links, put, o)
  }

  /** A request is served from storage exactly if somebody can answer it. */
  lemma AnsweredExactly(cfg: Config, s: System, id: NodeId, page: u32, links: seq<Link>, put: bool)
    requires SystemOk(cfg, s) && DistinctEndpoints(cfg) && DisjointRanges(cfg)
    ensures Visit(cfg, s, id, page, links, put, {}).Served? <==> Answerable(cfg, s, id, page, links)
  {
    if id in s.nodes {
      if o :| InRange(cfg, o, page) {
        OwnerOf(cfg, s, id, page, links, put, o);
        assert forall q :: Answers(cfg, s, id, page, links, q) ==> InRange(cfg, q, page);
        assert Answers(cfg, s, id, page, links, o) ==> Answerable(cfg, s, id, page, links);
      } else {
        NobodyOwns(cfg, s, id, page);
      }
    }
  }

  lemma OwnerOf(cfg: Config, s: System, id: NodeId, page: u32, links: seq<Link>, put: bool, o: NodeId)
    requires SystemOk(cfg, s) && DistinctEndpoints(cfg) && DisjointRanges(cfg)
    requires InRange(cfg, o, page) && id in s.nodes
    ensures var f := Visit(cfg, s, id, page, links, put, {});
            && (f.Served? <==> Answers(cfg, s, id, page, links, o))
            && (f.Silent? <==> WaitsOn(cfg, s, id, page, links, put, o))
            && (f.Served? ==> f.server == o)
  {
    if id == o {
      OwnerVisit(cfg, s, o, page, links, put, {});
    } else {
      OtherVisit(cfg, s, id, page, links, put, o);
    }
  }

  /**
   A request is never answered exactly if its page lies beyond the storage of its running
   owner, which is the node asked or one it knows, and the forwards go out, or if the
   connection to that owner is stuck and does not break.
   */
  lemma UnansweredExactly(cfg: Config, s: System, id: NodeId, page: u32, links: seq<Link>, put: bool)
    requires SystemOk(cfg, s) && DistinctEndpoints(cfg) && DisjointRanges(cfg)
    ensures Visit(cfg, s, id, page, links, put, {}).Silent? <==> Unanswered(cfg, s, id, page, links, put)
  {
    if id in s.nodes {
      if o :| InRange(cfg, o, page) {
        OwnerOf(cfg, s, id, page, links, put, o);
        assert forall q :: WaitsOn(cfg, s, id, page, links, put, q) ==> InRange(cfg, q, page);
        assert WaitsOn(cfg, s, id, page, links, put, o) ==> Unanswered(cfg, s, id, page, links, put);
      } else {
        NobodyOwns(cfg, s, id, page);
      }
    }
  }
}
