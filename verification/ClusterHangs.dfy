/**
 Connections between nodes that fail for good: what breaks them, what leaves them waiting
 for ever, and what becomes of every later request.
 */
module ClusterHangs {
  import opened Base
  import opened GossipCodec
  import opened Membership
  import opened ClusterSystem
  import opened ClusterHistory
  import opened ClusterRouting

  /** A run that shows it: a node started with a range beyond its storage is asked for a page there. */
  lemma {:induction false} BeyondStorageNoReply(cfg: Config, o: NodeId, page: u32)
    requires DistinctEndpoints(cfg) && DisjointRanges(cfg) && InRange(cfg, o, page) && page >= cfg[o].storagePages
    ensures Reply(cfg, Behave(cfg, [Start(o, 0)]), o, page, []) == None
    ensures !Acked(cfg, Behave(cfg, [Start(o, 0)]), o, page, [])
  {
    var acts := [Start(o, 0)];
    BehaveOk(cfg, acts);
    var s := Behave(cfg, acts);
    assert acts[..0] == [] && acts[..1] == acts;
    BehaveNext(cfg, acts, 0);
    assert s.nodes[o] == Boot(cfg[o], o, 0);
    OwnerForwardsToItself(cfg, s, o, page, [], false);
    OwnerForwardsToItself(cfg, s, o, page, [], true);
  }

  /** What a forward from a node to an owner leaves of the connection between them, and when it leaves one, exactly. */
  lemma HealthExactly(cfg: Config, s: System, a: Action, o: NodeId)
    requires SystemOk(cfg, s) && DistinctEndpoints(cfg) && DisjointRanges(cfg) && (a.GetPage? || a.PutPage?)
    requires InRange(cfg, o, a.page) && o != a.id && KnowsOwner(s, a.id, a.page, o)
    ensures a.id in Next(cfg, s, a).nodes
    ensures var n, link := s.nodes[a.id], Meets(s.nodes[a.id], o, a.links);
            HealthOf(Next(cfg, s, a).nodes[a.id], o) ==
            if HealthOf(n, o).Broken? || link.Refused? then HealthOf(n, o)
            else if link.Breaks? then Broken
            else if Unanswered(cfg, s, a.id, a.page, a.links, a.PutPage?) then Stuck
            else Sound
    ensures Cached(Next(cfg, s, a).nodes[a.id], o) <==>
            Cached(s.nodes[a.id], o) || !Meets(s.nodes[a.id], o, a.links).Refused?
  {
    TraceHealth(cfg, s, a.id, a.page, a.links, a.PutPage?, o);
    UnansweredExactly(cfg, s, a.id, a.page, a.links, a.PutPage?);
    SameConns(cfg, s, a);
  }

  /** A request leaves the connections its trace says, a PUT's storing notwithstanding. */
  lemma SameConns(cfg: Config, s: System, a: Action)
    requires (a.GetPage? || a.PutPage?) && a.id in s.nodes
    ensures a.id in Next(cfg, s, a).nodes
    ensures var n, n' := Trace(cfg, s, a.id, a.page, a.links, a.PutPage?, {}).nodes[a.id], Next(cfg, s, a).nodes[a.id];
            n'.table == n.table && n'.peers == n.peers
  {
    if a.PutPage? {
      var t, at := Trace(cfg, s, a.id, a.page, a.links, true, {}), StoredAt(cfg, s, a.id, a.page, a.links);
      PutAtKeeps(t, at, a.page, a.data, a.id);
    }
  }

  lemma PutAtKeeps(s: System, at: Option<NodeId>, page: u32, data: Page, o: NodeId)
    requires o in s.nodes
    ensures var s' := PutAt(s, at, page, data);
            o in s'.nodes && s'.nodes[o].table == s.nodes[o].table && s'.nodes[o].peers == s.nodes[o].peers
  {
  }

  lemma TraceHealth(cfg: Config, s: System, id: NodeId, page: u32, links: seq<Link>, put: bool, o: NodeId)
    requires SystemOk(cfg, s) && DistinctEndpoints(cfg) && DisjointRanges(cfg)
    requires InRange(cfg, o, page) && o != id && KnowsOwner(s, id, page, o)
    ensures var n, link := s.nodes[id], Meets(s.nodes[id], o, links);
            HealthOf(Trace(cfg, s, id, page, links, put, {}).nodes[id], o) ==
            if HealthOf(n, o).Broken? || link.Refused? then HealthOf(n, o)
            else HealthAfter(link, Visit(cfg, s, id, page, links, put, {}))
    ensures Cached(Trace(cfg, s, id, page, links, put, {}).nodes[id], o) <==>
            Cached(s.nodes[id], o) || !Meets(s.nodes[id], o, links).Refused?
  {
    assert NodeOk(cfg, id, s.nodes[id]);
    assert !InRange(cfg, id, page);
    LookupFinds(cfg, s, id, page, o);
    PeerIsEntry(cfg, s, id, Owner(s.nodes[id].table, page).value);
  }

  /** Across a connection that is not sound no request gets through. */
  lemma UnsoundNeverServes(cfg: Config, s: System, id: NodeId, page: u32, o: NodeId, links: seq<Link>)
    requires SystemOk(cfg, s) && DistinctEndpoints(cfg) && DisjointRanges(cfg)
    requires id in s.nodes && InRange(cfg, o, page) && o != id && !HealthOf(s.nodes[id], o).Sound?
    ensures var r := Reply(cfg, s, id, page, links);
            r == Some(ZERO_PAGE) || (r == None && HealthOf(s.nodes[id], o).Stuck?)
    ensures !Acked(cfg, s, id, page, links) && StoredAt(cfg, s, id, page, links) == None
  {
    OtherVisit(cfg, s, id, page, links, false, o);
    OtherVisit(cfg, s, id, page, links, true, o);
  }

  lemma BehaveNext(cfg: Config, acts: seq<Action>, k: nat)
    requires k < |acts|
    ensures Behave(cfg, acts[..k + 1]) == Next(cfg, Behave(cfg, acts[..k]), acts[k])
  {
    assert acts[..k + 1][..k] == acts[..k];
  }

  /**
   One break is for good: once a request forwarded from a node to an owner has met a link
   that broke, every later GET there for any page of that owner is answered with zeros, and
   every later PUT fails without being stored.
   */
  lemma OneBreakIsForever(cfg: Config, acts: seq<Action>, k: nat, o: NodeId, page: u32, links: seq<Link>)
    requires DistinctEndpoints(cfg) && DisjointRanges(cfg) && k < |acts| && (acts[k].GetPage? || acts[k].PutPage?)
    requires InRange(cfg, o, acts[k].page) && o != acts[k].id
    requires KnowsOwner(Behave(cfg, acts[..k]), acts[k].id, acts[k].page, o)
    requires Meets(Behave(cfg, acts[..k]).nodes[acts[k].id], o, acts[k].links).Breaks?
    requires InRange(cfg, o, page)
    ensures Reply(cfg, Behave(cfg, acts), acts[k].id, page, links) == Some(ZERO_PAGE)
    ensures !Acked(cfg, Behave(cfg, acts), acts[k].id, page, links)
    ensures StoredAt(cfg, Behave(cfg, acts), acts[k].id, page, links) == None
  {
    BehaveOk(cfg, acts[..k]);
    HealthExactly(cfg, Behave(cfg, acts[..k]), acts[k], o);
    BehaveNext(cfg, acts, k);
    StaysUnsound(cfg, acts, k, o);
    UnsoundNeverServes(cfg, Behave(cfg, acts), acts[k].id, page, o, links);
  }

  /**
   One request that is never answered is enough: every later request at that node for any
   page of the same owner, its good pages included, is never served. GETs get zeros or no
   reply, PUTs no acknowledgement, and nothing is stored.
   */
  lemma OneHangIsForever(cfg: Config, acts: seq<Action>, k: nat, o: NodeId, page: u32, links: seq<Link>)
    requires DistinctEndpoints(cfg) && DisjointRanges(cfg) && k < |acts| && (acts[k].GetPage? || acts[k].PutPage?)
    requires InRange(cfg, o, acts[k].page) && o != acts[k].id
    requires KnowsOwner(Behave(cfg, acts[..k]), acts[k].id, acts[k].page, o)
    requires Unanswered(cfg, Behave(cfg, acts[..k]), acts[k].id, acts[k].page, acts[k].links, acts[k].PutPage?)
    requires InRange(cfg, o, page)
    ensures var r := Reply(cfg, Behave(cfg, acts), acts[k].id, page, links); r == None || r == Some(ZERO_PAGE)
    ensures !Acked(cfg, Behave(cfg, acts), acts[k].id, page, links)
    ensures StoredAt(cfg, Behave(cfg, acts), acts[k].id, page, links) == None
  {
    BehaveOk(cfg, acts[..k]);
    HealthExactly(cfg, Behave(cfg, acts[..k]), acts[k], o);
    UnansweredHere(cfg, Behave(cfg, acts[..k]), acts[k].id, acts[k].page, acts[k].links, acts[k].PutPage?, o);
    BehaveNext(cfg, acts, k);
    StaysUnsound(cfg, acts, k, o);
    UnsoundNeverServes(cfg, Behave(cfg, acts), acts[k].id, page, o, links);
  }

  lemma UnansweredHere(cfg: Config, s: System, id: NodeId, page: u32, links: seq<Link>, put: bool, o: NodeId)
    requires SystemOk(cfg, s) && DistinctEndpoints(cfg) && DisjointRanges(cfg)
    requires InRange(cfg, o, page) && id in s.nodes && Unanswered(cfg, s, id, page, links, put)
    ensures WaitsOn(cfg, s, id, page, links, put, o)
  {
    UnansweredExactly(cfg, s, id, page, links, put);
    OwnerOf(cfg, s, id, page, links, put, o);
  }

  /** A connection that step k leaves unsound is unsound, and no better, at the end. */
  lemma StaysUnsound(cfg: Config, acts: seq<Action>, k: nat, o: NodeId)
    requires DistinctEndpoints(cfg) && k < |acts| && (acts[k].GetPage? || acts[k].PutPage?)
    requires var s := Behave(cfg, acts[..k + 1]); acts[k].id in s.nodes && !HealthOf(s.nodes[acts[k].id], o).Sound?
    ensures SystemOk(cfg, Behave(cfg, acts)) && acts[k].id in Behave(cfg, acts).nodes
    ensures var h := HealthOf(Behave(cfg, acts[..k + 1]).nodes[acts[k].id], o);
            var h' := HealthOf(Behave(cfg, acts).nodes[acts[k].id], o);
            !h'.Sound? && NoBetter(h, h')
  {
    BehaveOk(cfg, acts);
    MembershipEvolves(cfg, acts, k + 1);
    NoBetterOnes(acts[k].id, Behave(cfg, acts[..k + 1]).nodes[acts[k].id], Behave(cfg, acts).nodes[acts[k].id], o);
  }

  lemma NoBetterOnes(id: NodeId, n: Node, n': Node, o: NodeId)
    requires Evolves(id, n, n') && Cached(n, o)
    ensures NoBetter(HealthOf(n, o), HealthOf(n', o))
  {
  }

  /**
   How it spreads: a node forwards one GET for a page beyond its owner's storage, and its
   next GET, for a page that owner holds, is not answered either, over links that all work.
   */
  lemma HangSpreads(cfg: Config, s: System, id: NodeId, o: NodeId, bad: u32, good: u32)
    requires SystemOk(cfg, s) && DistinctEndpoints(cfg) && DisjointRanges(cfg) && id != o
    requires InRange(cfg, o, bad) && bad >= cfg[o].storagePages && InRange(cfg, o, good) && good < cfg[o].storagePages
    requires KnowsOwner(s, id, bad, o) && HealthOf(s.nodes[id], o).Sound? && !HealthOf(s.nodes[o], o).Broken?
    ensures Reply(cfg, s, id, bad, []) == None
    ensures Reply(cfg, Next(cfg, s, GetPage(id, bad, [])), id, good, []) == None
    ensures Reply(cfg, s, id, good, []).Some?
  {
    var s' := Next(cfg, s, GetPage(id, bad, []));
    NextOk(cfg, s, GetPage(id, bad, []));
    UnansweredExactly(cfg, s, id, bad, [], false);
    assert WaitsOn(cfg, s, id, bad, [], false, o);
    BadPage(cfg, s, id, o, bad, []);
    GoodPage(cfg, s, id, o, bad, good);
    GoodPage(cfg, s', id, o, bad, good);
  }

  lemma BadPage(cfg: Config, s: System, id: NodeId, o: NodeId, bad: u32, links: seq<Link>)
    requires SystemOk(cfg, s) && DistinctEndpoints(cfg) && DisjointRanges(cfg) && id != o
    requires InRange(cfg, o, bad) && bad >= cfg[o].storagePages && KnowsOwner(s, id, bad, o)
    requires GoesOut(s.nodes[id], o, links) && GoesOut(s.nodes[o], o, Rest(links))
    ensures var s' := Next(cfg, s, GetPage(id, bad, links));
            KnowsOwner(s', id, bad, o) && HealthOf(s'.nodes[id], o).Stuck?
  {
    assert WaitsOn(cfg, s, id, bad, links, false, o);
    HealthExactly(cfg, s, GetPage(id, bad, links), o);
    StillKnows(cfg, s, id, bad, links, o);
  }

  lemma StillKnows(cfg: Config, s: System, id: NodeId, page: u32, links: seq<Link>, o: NodeId)
    requires KnowsOwner(s, id, page, o)
    ensures KnowsOwner(Next(cfg, s, GetPage(id, page, links)), id, page, o)
  {
    assert OnlyConns(s, Next(cfg, s, GetPage(id, page, links)), {});
  }

  lemma GoodPage(cfg: Config, s: System, id: NodeId, o: NodeId, bad: u32, good: u32)
    requires SystemOk(cfg, s) && DistinctEndpoints(cfg) && DisjointRanges(cfg) && id != o
    requires InRange(cfg, o, bad) && InRange(cfg, o, good) && good < cfg[o].storagePages
    requires KnowsOwner(s, id, bad, o) && !HealthOf(s.nodes[id], o).Broken?
    ensures Reply(cfg, s, id, good, []).Some? <==> HealthOf(s.nodes[id], o).Sound?
  {
    KnowsAll(cfg, s, id, bad, good, o);
    OtherVisit(cfg, s, id, good, [], false, o);
    assert NodeOk(cfg, o, s.nodes[o]);
  }

  /** Who knows the owner of one page knows it as the owner of its other pages. */
  lemma KnowsAll(cfg: Config, s: System, id: NodeId, p: u32, q: u32, o: NodeId)
    requires SystemOk(cfg, s) && InRange(cfg, o, p) && InRange(cfg, o, q) && KnowsOwner(s, id, p, o)
    ensures KnowsOwner(s, id, q, o)
  {
    var e :| e in s.nodes[id].table && e.id == o && Owns(e, p);
    assert Truthful(cfg, e) && Owns(e, q);
  }
}
