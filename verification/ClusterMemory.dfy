/**
 What clients of the cluster may rely on in every run: one memory spread over all nodes,
 and exactly when a request at any of them sees it.
 */
module ClusterMemory {
  import opened Base
  import opened GossipCodec
  import opened Membership
  import opened ClusterSystem
  import opened ClusterRouting

  /** The cluster's memory at a page: its owner's copy, or zeros while the owner is not running. */
  ghost function Memory(cfg: Config, s: System, page: u32): Page {
    if exists o :: HoldsPage(cfg, s, o, page) then
      var o :| HoldsPage(cfg, s, o, page);
      s.nodes[o].storage[page]
    else ZERO_PAGE
  }

  ghost predicate HoldsPage(cfg: Config, s: System, o: NodeId, page: u32) {
    InRange(cfg, o, page) && o in s.nodes && page < |s.nodes[o].storage|
  }

  lemma MemoryIs(cfg: Config, s: System, o: NodeId, page: u32)
    requires DisjointRanges(cfg) && HoldsPage(cfg, s, o, page)
    ensures Memory(cfg, s, page) == s.nodes[o].storage[page]
  {
    forall q | HoldsPage(cfg, s, q, page)
      ensures q == o
    {
      assert InRange(cfg, q, page) && InRange(cfg, o, page);
    }
  }

  /**
   A GET returns the cluster's memory exactly if a running node whose range and storage
   cover the page is the one asked, or one it lists as not dead over a sound connection, or
   if the memory there is all zero and the GET is answered at all. Any other reply is zeros.
   */
  lemma GetReturnsMemory(cfg: Config, s: System, id: NodeId, page: u32, links: seq<Link>)
    requires SystemOk(cfg, s) && DistinctEndpoints(cfg) && DisjointRanges(cfg)
    ensures Reply(cfg, s, id, page, links) == Some(Memory(cfg, s, page)) <==>
            || Answerable(cfg, s, id, page, links)
            || (Memory(cfg, s, page) == ZERO_PAGE && !Unanswered(cfg, s, id, page, links, false))
    ensures Reply(cfg, s, id, page, links) == None <==> Unanswered(cfg, s, id, page, links, false)
    ensures Reply(cfg, s, id, page, links).Some? && !Answerable(cfg, s, id, page, links) ==>
            Reply(cfg, s, id, page, links) == Some(ZERO_PAGE)
  {
    AnsweredExactly(cfg, s, id, page, links, false);
    UnansweredExactly(cfg, s, id, page, links, false);
    ServerOwns(cfg, s, id, page, links, false, {});
    var f := Visit(cfg, s, id, page, links, false, {});
    if f.Served? {
      MemoryIs(cfg, s, f.server, page);
    }
  }

  /**
   When every range fits its node's storage, a GET over working links is answered with the
   cluster's memory from every node that knows a running owner over a sound connection.
   */
  lemma GetSucceeds(cfg: Config, s: System, id: NodeId, page: u32, o: NodeId)
    requires SystemOk(cfg, s) && DistinctEndpoints(cfg) && DisjointRanges(cfg) && RangesFit(cfg)
    requires InRange(cfg, o, page) && KnowsOwner(s, id, page, o) && HealthOf(s.nodes[id], o).Sound?
    ensures Reply(cfg, s, id, page, []) == Some(Memory(cfg, s, page))
  {
    assert Answers(cfg, s, id, page, [], o);
    GetReturnsMemory(cfg, s, id, page, []);
  }

  /**
   A suspected owner is still routed to: while the entry for a running owner is SUSPECT, over
   a sound connection, its pages are read and written as before.
   */
  lemma SuspectStillServes(cfg: Config, s: System, id: NodeId, i: nat, o: NodeId, page: u32)
    requires SystemOk(cfg, s) && DistinctEndpoints(cfg) && DisjointRanges(cfg)
    requires id in s.nodes && i < |s.nodes[id].table| && s.nodes[id].table[i].id == o
    requires s.nodes[id].table[i].state == SUSPECT
    requires o in s.nodes && InRange(cfg, o, page) && page < cfg[o].storagePages
    requires HealthOf(s.nodes[id], o).Sound?
    ensures Reply(cfg, s, id, page, []) == Some(Memory(cfg, s, page))
    ensures Acked(cfg, s, id, page, []) && StoredAt(cfg, s, id, page, []) == Some(o)
  {
    var t := s.nodes[id].table;
    assert Truthful(cfg, t[i]);
    OwnerExactly(t, page);
    LookupFinds(cfg, s, id, page, o);
    assert Answers(cfg, s, id, page, [], o);
    GetReturnsMemory(cfg, s, id, page, []);
    AnsweredExactly(cfg, s, id, page, [], true);
    ServedLands(cfg, s, id, page, [], true, {});
    ServerOwns(cfg, s, id, page, [], true, {});
  }

  /** The page a step writes, if it writes one. */
  ghost function Written(cfg: Config, s: System, a: Action): Option<(u32, Page)> {
    if a.PutPage? && StoredAt(cfg, s, a.id, a.page, a.links).Some? then Some((a.page, a.data)) else None
  }

  ghost function Updated(cfg: Config, s: System, a: Action, page: u32): Page {
    match Written(cfg, s, a)
    case Some((q, data)) => if q == page then data else Memory(cfg, s, page)
    case None => Memory(cfg, s, page)
  }

  /** The memory changes by stored PUTs, at their page, and by nothing else. */
  lemma NextMemory(cfg: Config, s: System, a: Action, page: u32)
    requires SystemOk(cfg, s) && DistinctEndpoints(cfg) && DisjointRanges(cfg)
    ensures Memory(cfg, Next(cfg, s, a), page) == Updated(cfg, s, a, page)
  {
    if a.PutPage? {
      PutMemory(cfg, s, a, page);
    } else {
      QuietMemory(cfg, s, a, page);
    }
  }

  lemma PutMemory(cfg: Config, s: System, a: Action, page: u32)
    requires SystemOk(cfg, s) && DistinctEndpoints(cfg) && DisjointRanges(cfg) && a.PutPage?
    ensures Memory(cfg, Next(cfg, s, a), page) == Updated(cfg, s, a, page)
  {
    ServerOwns(cfg, s, a.id, a.page, a.links, true, {});
    var t, at := Trace(cfg, s, a.id, a.page, a.links, true, {}), StoredAt(cfg, s, a.id, a.page, a.links);
    ConnsKeepMemory(cfg, s, t, page);
    if at.Some? {
      StoredMemory(cfg, t, at.value, a.page, a.data, page);
    }
  }

  lemma ConnsKeepMemory(cfg: Config, s: System, s': System, page: u32)
    requires DisjointRanges(cfg) && OnlyConns(s, s', {})
    ensures Memory(cfg, s', page) == Memory(cfg, s, page)
  {
    SameHolders(cfg, s, s', page);
  }

  /** Storing a page at its owner changes the memory there, and nowhere else. */
  lemma StoredMemory(cfg: Config, s: System, o: NodeId, p: u32, data: Page, page: u32)
    requires DisjointRanges(cfg) && HoldsPage(cfg, s, o, p)
    ensures var s' := s.(nodes := s.nodes[o := s.nodes[o].(storage := s.nodes[o].storage[p := data])]);
            Memory(cfg, s', page) == if page == p then data else Memory(cfg, s, page)
  {
    var s' := s.(nodes := s.nodes[o := s.nodes[o].(storage := s.nodes[o].storage[p := data])]);
    if page == p {
      MemoryIs(cfg, s', o, p);
    } else {
      SameHolders(cfg, s, s', page);
    }
  }

  lemma QuietMemory(cfg: Config, s: System, a: Action, page: u32)
    requires DisjointRanges(cfg) && !a.PutPage?
    ensures Memory(cfg, Next(cfg, s, a), page) == Memory(cfg, s, page)
  {
    StorageKept(cfg, s, a);
    var s' := Next(cfg, s, a);
    if exists o :: o in s'.nodes && o !in s.nodes && HoldsPage(cfg, s', o, page) {
      var o :| o in s'.nodes && o !in s.nodes && HoldsPage(cfg, s', o, page);
      MemoryIs(cfg, s', o, page);
      forall q | HoldsPage(cfg, s, q, page)
        ensures q == o
      {
        assert InRange(cfg, o, page) && InRange(cfg, q, page);
      }
    } else {
      SameHolders(cfg, s, s', page);
    }
  }

  /** Only a PUT touches storage; a node that starts has storage full of zeros. */
  lemma StorageKept(cfg: Config, s: System, a: Action)
    requires !a.PutPage?
    ensures var s' := Next(cfg, s, a);
            && (forall o :: o in s.nodes ==> o in s'.nodes && s'.nodes[o].storage == s.nodes[o].storage)
            && (forall o, p :: o in s'.nodes && o !in s.nodes && 0 <= p < |s'.nodes[o].storage| ==>
                  s'.nodes[o].storage[p] == ZERO_PAGE)
  {
  }

  /** Two states whose nodes hold the same copies of a page have the same memory there. */
  lemma SameHolders(cfg: Config, s: System, s': System, page: u32)
    requires DisjointRanges(cfg)
    requires forall o :: HoldsPage(cfg, s', o, page) ==> HoldsPage(cfg, s, o, page)
    requires forall o :: HoldsPage(cfg, s, o, page) ==>
               HoldsPage(cfg, s', o, page) && s'.nodes[o].storage[page] == s.nodes[o].storage[page]
    ensures Memory(cfg, s', page) == Memory(cfg, s, page)
  {
    if o :| HoldsPage(cfg, s, o, page) {
      MemoryIs(cfg, s, o, page);
      MemoryIs(cfg, s', o, page);
    }
  }

  /** What a run last stored at a page, through whichever node. */
  ghost function LastPut(cfg: Config, acts: seq<Action>, page: u32): Page {
    if acts == [] then ZERO_PAGE
    else
      var k := |acts| - 1;
      match Written(cfg, Behave(cfg, acts[..k]), acts[k])
      case Some((q, data)) => if q == page then data else LastPut(cfg, acts[..k], page)
      case None => LastPut(cfg, acts[..k], page)
  }

  lemma {:induction false} MemoryIsLastPut(cfg: Config, acts: seq<Action>, page: u32)
    requires DistinctEndpoints(cfg) && DisjointRanges(cfg)
    ensures Memory(cfg, Behave(cfg, acts), page) == LastPut(cfg, acts, page)
  {
    if acts == [] {
    } else {
      var k := |acts| - 1;
      MemoryIsLastPut(cfg, acts[..k], page);
      BehaveOk(cfg, acts[..k]);
      NextMemory(cfg, Behave(cfg, acts[..k]), acts[k], page);
    }
  }

  /**
   Cluster memory refinement: in every run a GET through any node returns the page last PUT
   through any node exactly if somebody can answer it, or that page is all zero and the GET
   is answered at all.
   */
  lemma GetReturnsLastPut(cfg: Config, acts: seq<Action>, id: NodeId, page: u32, links: seq<Link>)
    requires DistinctEndpoints(cfg) && DisjointRanges(cfg)
    ensures var s := Behave(cfg, acts);
            Reply(cfg, s, id, page, links) == Some(LastPut(cfg, acts, page)) <==>
            || Answerable(cfg, s, id, page, links)
            || (LastPut(cfg, acts, page) == ZERO_PAGE && !Unanswered(cfg, s, id, page, links, false))
  {
    BehaveOk(cfg, acts);
    GetReturnsMemory(cfg, Behave(cfg, acts), id, page, links);
    MemoryIsLastPut(cfg, acts, page);
  }

  lemma {:induction false} TwoStarted(cfg: Config, a: NodeId, b: NodeId)
    requires a in cfg && b in cfg && a != b
    ensures var s := Behave(cfg, [Start(a, 0), Start(b, 0)]);
            && a in s.nodes && s.nodes[a] == Boot(cfg[a], a, 0)
            && b in s.nodes && s.nodes[b] == Boot(cfg[b], b, 0)
  {
    var acts := [Start(a, 0), Start(b, 0)];
    assert acts[..1] == [Start(a, 0)] && acts[..1][..0] == [];
    assert Behave(cfg, acts[..1]) == Next(cfg, EMPTY, Start(a, 0));
  }

  /**
   Where it fails: start a and b, PUT a page through its owner a, and GET it through b before
   any gossip. Whatever the network does, b answers with zeros as if they were the page.
   */
  lemma {:induction false} UnheardOwnerReadsZeros(cfg: Config, a: NodeId, b: NodeId, page: u32, data: Page,
                                                  links: seq<Link>)
    requires DistinctEndpoints(cfg) && DisjointRanges(cfg) && a != b && b in cfg
    requires InRange(cfg, a, page) && page < cfg[a].storagePages
    ensures var acts := [Start(a, 0), Start(b, 0), PutPage(a, page, data, [])];
            && LastPut(cfg, acts, page) == data
            && Acked(cfg, Behave(cfg, acts[..2]), a, page, [])
            && Reply(cfg, Behave(cfg, acts), b, page, links) == Some(ZERO_PAGE)
  {
    var put := PutPage(a, page, data, []);
    var acts := [Start(a, 0), Start(b, 0), put];
    assert acts[..2] == [Start(a, 0), Start(b, 0)];
    var s := Behave(cfg, acts[..2]);
    TwoStarted(cfg, a, b);
    assert ServesHere(s.nodes[a], page) && Written(cfg, s, put) == Some((page, data));
    BehaveOk(cfg, acts);
    assert Behave(cfg, acts) == Next(cfg, s, put);
    assert Behave(cfg, acts).nodes[b] == s.nodes[b];
    NobodyListed(cfg, Behave(cfg, acts), b, page, a, links);
  }

  /** A node that does not list the owner answers with zeros. */
  lemma NobodyListed(cfg: Config, s: System, id: NodeId, page: u32, o: NodeId, links: seq<Link>)
    requires SystemOk(cfg, s) && DistinctEndpoints(cfg) && DisjointRanges(cfg)
    requires id in s.nodes && InRange(cfg, o, page) && o != id && Find(s.nodes[id].table, o) < 0
    ensures Reply(cfg, s, id, page, links) == Some(ZERO_PAGE)
  {
    OtherVisit(cfg, s, id, page, links, false, o);
    assert !KnowsOwner(s, id, page, o);
  }

  /** An acknowledged PUT has been stored at the one node configured to own the page. */
  lemma AckMeansStored(cfg: Config, acts: seq<Action>, id: NodeId, page: u32, data: Page, links: seq<Link>)
    requires DistinctEndpoints(cfg) && DisjointRanges(cfg)
    requires Acked(cfg, Behave(cfg, acts), id, page, links)
    ensures LastPut(cfg, acts + [PutPage(id, page, data, links)], page) == data
    ensures var o := StoredAt(cfg, Behave(cfg, acts), id, page, links);
            o.Some? && forall q :: InRange(cfg, q, page) <==> q == o.value
  {
    BehaveOk(cfg, acts);
    AckedOwner(cfg, Behave(cfg, acts), id, page, links);
    var all := acts + [PutPage(id, page, data, links)];
    assert all[..|acts|] == acts;
  }

  lemma AckedOwner(cfg: Config, s: System, id: NodeId, page: u32, links: seq<Link>)
    requires SystemOk(cfg, s) && DistinctEndpoints(cfg) && DisjointRanges(cfg) && Acked(cfg, s, id, page, links)
    ensures var o := StoredAt(cfg, s, id, page, links);
            o.Some? && forall q :: InRange(cfg, q, page) <==> q == o.value
  {
    ServerOwns(cfg, s, id, page, links, true, {});
    ServedLands(cfg, s, id, page, links, true, {});
  }

  /** In every run a node's storage outside its own range stays all zero. */
  lemma ForeignPagesStayZero(cfg: Config, acts: seq<Action>, id: NodeId, p: nat)
    requires DistinctEndpoints(cfg) && id in Behave(cfg, acts).nodes
    requires p < |Behave(cfg, acts).nodes[id].storage| && !InRange(cfg, id, p)
    ensures Behave(cfg, acts).nodes[id].storage[p] == ZERO_PAGE
  {
    BehaveOk(cfg, acts);
  }
}
