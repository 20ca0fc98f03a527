/**
 The whole stack: one client's page cache over one node of a cluster. Its writebacks and
 fetches are carried out by the cluster's own request handling, failed forwards, their zero
 pages and requests without an answer included, over a connection of its own that may fail,
 while gossip, heartbeats and starting nodes interleave.
 */
module ClientCluster {
  import opened Base
  import opened GossipCodec
  import opened PagerModel
  import opened PagerSteps
  import opened PagerRuns
  import opened PagerResidence
  import opened PagerServer
  import opened PagerClock
  import opened PagerCounts
  import opened PagerWriteback
  import opened ClusterSystem
  import opened ClusterRouting
  import opened ClusterMemory
  import opened ClusterHangs

  // ---------- The GETs of one operation ----------

  /** One GET as the client's node gets it, and how its forwards fare. */
  datatype Ask = Ask(page: u32, links: seq<Link>)

  ghost function ReplyTo(cfg: Config, node: NodeId, s: System, g: Ask): Option<Page> {
    Reply(cfg, s, node, g.page, g.links)
  }

  ghost function Asked(cfg: Config, node: NodeId, s: System, g: Ask): System {
    Next(cfg, s, GetPage(node, g.page, g.links))
  }

  /** The cluster after the node has handled the GETs in order, up to one it never answers. */
  ghost function AllAsked(cfg: Config, node: NodeId, s: System, gets: seq<Ask>): System
    decreases |gets|
  {
    if gets == [] then s
    else if ReplyTo(cfg, node, s, gets[0]).None? then Asked(cfg, node, s, gets[0])
    else AllAsked(cfg, node, Asked(cfg, node, s, gets[0]), gets[1..])
  }

  /** What the node replies to the GET for page q, when its turn comes; nothing if it never comes. */
  ghost function Answer(cfg: Config, node: NodeId, s: System, gets: seq<Ask>, q: u32): Option<Page>
    decreases |gets|
  {
    if gets == [] then None
    else if gets[0].page == q then ReplyTo(cfg, node, s, gets[0])
    else if ReplyTo(cfg, node, s, gets[0]).None? then None
    else Answer(cfg, node, Asked(cfg, node, s, gets[0]), gets[1..], q)
  }

  /**
   The GET for page q has its turn, and then somebody can answer it, or the page is all zero
   and it is answered at all.
   */
  ghost predicate Answered(cfg: Config, node: NodeId, s: System, gets: seq<Ask>, q: u32)
    decreases |gets|
  {
    && gets != []
    && var g := gets[0];
       if g.page == q then
         || Answerable(cfg, s, node, q, g.links)
         || (Memory(cfg, s, q) == ZERO_PAGE && !Unanswered(cfg, s, node, q, g.links, false))
       else
         && !Unanswered(cfg, s, node, g.page, g.links, false)
         && Answered(cfg, node, Asked(cfg, node, s, g), gets[1..], q)
  }

  lemma {:induction false} AllAskedQuiet(cfg: Config, node: NodeId, s: System, gets: seq<Ask>, q: u32)
    requires SystemOk(cfg, s) && DistinctEndpoints(cfg) && DisjointRanges(cfg)
    ensures SystemOk(cfg, AllAsked(cfg, node, s, gets))
    ensures Memory(cfg, AllAsked(cfg, node, s, gets), q) == Memory(cfg, s, q)
    decreases |gets|
  {
    if gets == [] {
    } else {
      AskedQuiet(cfg, node, s, gets[0], q);
      AllAskedQuiet(cfg, node, Asked(cfg, node, s, gets[0]), gets[1..], q);
    }
  }

  lemma AskedQuiet(cfg: Config, node: NodeId, s: System, g: Ask, q: u32)
    requires SystemOk(cfg, s) && DistinctEndpoints(cfg) && DisjointRanges(cfg)
    ensures SystemOk(cfg, Asked(cfg, node, s, g)) && Memory(cfg, Asked(cfg, node, s, g), q) == Memory(cfg, s, q)
  {
    NextOk(cfg, s, GetPage(node, g.page, g.links));
    QuietMemory(cfg, s, GetPage(node, g.page, g.links), q);
  }

  /** A page is replied to with the cluster's memory exactly if it is rightly answered for. */
  lemma {:induction false} RepliesExactly(cfg: Config, node: NodeId, s: System, gets: seq<Ask>, q: u32)
    requires SystemOk(cfg, s) && DistinctEndpoints(cfg) && DisjointRanges(cfg)
    ensures Answer(cfg, node, s, gets, q) == Some(Memory(cfg, s, q)) <==> Answered(cfg, node, s, gets, q)
    decreases |gets|
  {
    if gets == [] {
    } else {
      GetReturnsMemory(cfg, s, node, gets[0].page, gets[0].links);
      AskedQuiet(cfg, node, s, gets[0], q);
      if gets[0].page != q {
        RepliesExactly(cfg, node, Asked(cfg, node, s, gets[0]), gets[1..], q);
      }
    }
  }

  // ---------- The stack ----------

  /**
   The client's remote store here is no oracle. For a page in the cache it is the copy last
   exchanged with the node; for any other page it is the cluster's memory. A client whose
   call does not return is `waiting`, and stays as it was when it made the call.
   */
  datatype Stack = Stack(client: Pager, cluster: System, waiting: bool)

  ghost predicate Linked(cfg: Config, c: Stack) {
    && Inv(c.client, {}) && c.client.socket && SystemOk(cfg, c.cluster)
    && forall p :: 0 <= p < |c.client.pages| && !c.client.pages[p].valid ==>
         c.client.server[p] == Memory(cfg, c.cluster, p)
  }

  /** The cached copies, too, are those of the cluster's memory, up to what the client has written since. */
  ghost predicate Coupled(cfg: Config, c: Stack) {
    && Linked(cfg, c)
    && (!c.waiting ==> forall p :: 0 <= p < |c.client.pages| ==> c.client.server[p] == Memory(cfg, c.cluster, p))
  }

  /**
   Client operations, with the forwards of their PUT and the GETs that reach the node, and
   steps of the cluster. The outcomes in the operation itself are those of the client's own
   connection: a PUT may not reach the node, or its acknowledgement not come back.
   */
  datatype Event =
    | Client(op: Op, links: seq<Link>, gets: seq<Ask>)
    | Cluster(a: Action)

  /**
   The single client is the only one to write, so the cluster's own steps are not PUTs, and
   it makes no call while another has not returned.
   */
  ghost predicate Possible(c: Stack, ev: Event) {
    match ev
    case Client(op, _, _) => !c.waiting && OpOk(c.client, op)
    case Cluster(a) => !a.PutPage?
  }

  /** Does the writeback's PUT reach the node, and is it stored? */
  ghost predicate PutLands(cfg: Config, s: System, node: NodeId, page: u32, links: seq<Link>, wire: PutOutcome) {
    wire != PutFailed(false) && StoredAt(cfg, s, node, page, links).Some?
  }

  /** How a PUT through `node` turns out for a client whose own connection fares like `wire`. */
  ghost function PutResult(cfg: Config, s: System, node: NodeId, page: u32, links: seq<Link>,
                           wire: PutOutcome): PutOutcome {
    if wire.PutAcked? && Acked(cfg, s, node, page, links) then PutAcked
    else PutFailed(PutLands(cfg, s, node, page, links, wire))
  }

  /** The operation as it meets the cluster: its writeback has the outcome the cluster and its connection give it. */
  ghost function Wired(cfg: Config, node: NodeId, c: Stack, ev: Event): (op: Op)
    requires Inv(c.client, {}) && ev.Client? && OpOk(c.client, ev.op)
    ensures OpOk(c.client, op) && WritesBack(c.client, op) == WritesBack(c.client, ev.op)
  {
    match WritesBack(c.client, ev.op)
    case None => ev.op
    case Some((v, _)) =>
      ServerAfter(c.client, ev.op);
      ev.op.(net := ev.op.net.(put := PutResult(cfg, c.cluster, node, v, ev.links, ev.op.net.put)))
  }

  /** The writeback's PUT is never acknowledged, and the client's connection does not end. */
  ghost predicate PutWaits(cfg: Config, node: NodeId, c: Stack, ev: Event)
    requires Inv(c.client, {}) && ev.Client? && OpOk(c.client, ev.op)
  {
    match WritesBack(c.client, ev.op)
    case None => false
    case Some((v, _)) =>
      ServerAfter(c.client, ev.op);
      ev.op.net.put.PutAcked? && !Acked(cfg, c.cluster, node, v, ev.links)
  }

  /** The cluster after the operation's writeback, if it has one that reaches the node. */
  ghost function WrittenBack(cfg: Config, node: NodeId, c: Stack, ev: Event): System
    requires Inv(c.client, {}) && ev.Client? && OpOk(c.client, ev.op)
  {
    match WritesBack(c.client, ev.op)
    case None => c.cluster
    case Some((v, data)) =>
      ServerAfter(c.client, ev.op);
      if ev.op.net.put == PutFailed(false) then c.cluster
      else Next(cfg, c.cluster, PutPage(node, v, data, ev.links))
  }

  function OrZeros(p: Option<Page>): Page {
    if p.Some? then p.value else ZERO_PAGE
  }

  /** What the client would fetch: the node's reply, for every page it does not have. */
  ghost function Replies(cfg: Config, node: NodeId, c: Stack, ev: Event): (r: seq<Page>)
    requires Inv(c.client, {}) && ev.Client? && OpOk(c.client, ev.op)
    ensures AgreesOnCached(c.client, r)
  {
    seq(|c.client.pages|, q requires 0 <= q < |c.client.pages| =>
      if c.client.pages[q].valid then c.client.server[q]
      else OrZeros(Answer(cfg, node, WrittenBack(cfg, node, c, ev), ev.gets, q)))
  }

  /** Absent pages as the cluster has them, cached ones as last exchanged. */
  ghost function Settled(cfg: Config, s: Pager, cluster: System): Pager
    requires |s.pages| == |s.server| <= UINT32_MAX
  {
    Facing(s, seq(|s.pages|, q requires 0 <= q < |s.pages| =>
                    if s.pages[q].valid then s.server[q] else Memory(cfg, cluster, q)))
  }

  /** The pager's own step, fetching what the node replies. */
  ghost function Fetching(cfg: Config, node: NodeId, c: Stack, ev: Event): (r: (Pager, Output))
    requires Inv(c.client, {}) && ev.Client? && OpOk(c.client, ev.op)
    ensures Inv(r.0, {}) && SameConfig(c.client, r.0)
  {
    var u := Facing(c.client, Replies(cfg, node, c, ev));
    FacingKeeps(c.client, Replies(cfg, node, c, ev));
    StepKeeps(u, Wired(cfg, node, c, ev));
    Step(u, Wired(cfg, node, c, ev))
  }

  /** Page q is in cache t and was not in cache s. */
  predicate Enters(s: Pager, t: Pager, q: nat) {
    q < |s.pages| == |t.pages| && !s.pages[q].valid && t.pages[q].valid
  }

  /** The operation needs a page whose GET is never answered. */
  ghost predicate GetWaits(cfg: Config, node: NodeId, c: Stack, ev: Event)
    requires Inv(c.client, {}) && ev.Client? && OpOk(c.client, ev.op)
  {
    exists q: u32 ::
      && Enters(c.client, Fetching(cfg, node, c, ev).0, q)
      && Answer(cfg, node, WrittenBack(cfg, node, c, ev), ev.gets, q).None?
  }

  ghost predicate Waits(cfg: Config, node: NodeId, c: Stack, ev: Event)
    requires Inv(c.client, {}) && ev.Client? && OpOk(c.client, ev.op)
  {
    PutWaits(cfg, node, c, ev) || GetWaits(cfg, node, c, ev)
  }

  /** The cluster after an operation: its PUT handled, and its GETs, unless the PUT keeps the client waiting. */
  ghost function ClusterAfter(cfg: Config, node: NodeId, c: Stack, ev: Event): System
    requires Inv(c.client, {}) && ev.Client? && OpOk(c.client, ev.op)
  {
    var s := WrittenBack(cfg, node, c, ev);
    if PutWaits(cfg, node, c, ev) then s else AllAsked(cfg, node, s, ev.gets)
  }

  /** One event; a client operation that does not return has no output. */
  ghost function StackStep(cfg: Config, node: NodeId, c: Stack, ev: Event): (Stack, Option<Output>)
    requires Inv(c.client, {}) && Possible(c, ev)
  {
    match ev
    case Cluster(a) =>
      var cluster := Next(cfg, c.cluster, a);
      (Stack(Settled(cfg, c.client, cluster), cluster, c.waiting), None)
    case Client(_, _, _) =>
      var cluster := ClusterAfter(cfg, node, c, ev);
      if Waits(cfg, node, c, ev) then (Stack(Settled(cfg, c.client, cluster), cluster, true), None)
      else
        var (t, out) := Fetching(cfg, node, c, ev);
        (Stack(Settled(cfg, t, cluster), cluster, false), Some(out))
  }

  /** Page q came into the cache in this step. */
  ghost predicate BroughtIn(c: Stack, d: Stack, q: nat) {
    Enters(c.client, d.client, q)
  }

  // ---------- What one operation does to the two stores ----------

  lemma AckedLands(cfg: Config, s: System, node: NodeId, page: u32, links: seq<Link>, wire: PutOutcome)
    requires SystemOk(cfg, s) && DistinctEndpoints(cfg)
    ensures PutLands(cfg, s, node, page, links, wire) <==>
            PutResult(cfg, s, node, page, links, wire) != PutFailed(false)
  {
    ServedLands(cfg, s, node, page, links, true, {});
  }

  /** A store after a writeback whose outcome was `put`. */
  function PutIn(p: Page, q: nat, back: Option<(nat, Page)>, put: PutOutcome): Page {
    if back.Some? && back.value.0 == q && put != PutFailed(false) then back.value.1 else p
  }

  ghost function PutFate(cfg: Config, node: NodeId, c: Stack, ev: Event): PutOutcome
    requires Inv(c.client, {}) && ev.Client? && OpOk(c.client, ev.op)
  {
    if WritesBack(c.client, ev.op).Some? then Wired(cfg, node, c, ev).net.put else PutAcked
  }

  /** The writeback changes the cluster's memory at its page, as far as it got, and nothing else. */
  lemma WrittenBackMemory(cfg: Config, node: NodeId, c: Stack, ev: Event, q: u32)
    requires Linked(cfg, c) && DistinctEndpoints(cfg) && DisjointRanges(cfg)
    requires ev.Client? && OpOk(c.client, ev.op)
    ensures SystemOk(cfg, WrittenBack(cfg, node, c, ev))
    ensures Memory(cfg, WrittenBack(cfg, node, c, ev), q) ==
            PutIn(Memory(cfg, c.cluster, q), q, WritesBack(c.client, ev.op), PutFate(cfg, node, c, ev))
  {
    ServerAfter(c.client, ev.op);
    if WritesBack(c.client, ev.op).Some? {
      var (v, data) := WritesBack(c.client, ev.op).value;
      var a := PutPage(node, v, data, ev.links);
      NextOk(cfg, c.cluster, a);
      NextMemory(cfg, c.cluster, a, q);
      AckedLands(cfg, c.cluster, node, v, ev.links, ev.op.net.put);
    }
  }

  lemma VictimCached(c: Stack, ev: Event, q: nat)
    requires Inv(c.client, {}) && ev.Client? && OpOk(c.client, ev.op) && q < |c.client.pages|
    ensures var back := WritesBack(c.client, ev.op); back.Some? && back.value.0 == q ==> c.client.pages[q].valid
  {
    if WritesBack(c.client, ev.op).Some? { VictimResident(c.client, ev.op); }
  }

  /** The client's side of the same writeback. */
  lemma FetchingServer(cfg: Config, node: NodeId, c: Stack, ev: Event, q: nat)
    requires Inv(c.client, {}) && ev.Client? && OpOk(c.client, ev.op) && q < |c.client.pages|
    ensures var (t, back) := (Fetching(cfg, node, c, ev).0, WritesBack(c.client, ev.op));
            t.server[q] == PutIn(Replies(cfg, node, c, ev)[q], q, back, PutFate(cfg, node, c, ev))
  {
    var op, replies := Wired(cfg, node, c, ev), Replies(cfg, node, c, ev);
    FacingWritesBack(c.client, replies, op);
    ServerAfter(Facing(c.client, replies), op);
  }

  lemma StepSystemOk(cfg: Config, node: NodeId, c: Stack, ev: Event, q: u32)
    requires Linked(cfg, c) && DistinctEndpoints(cfg) && DisjointRanges(cfg)
    requires ev.Client? && OpOk(c.client, ev.op)
    ensures var s := ClusterAfter(cfg, node, c, ev);
            && SystemOk(cfg, s)
            && Memory(cfg, s, q) == Memory(cfg, WrittenBack(cfg, node, c, ev), q)
  {
    WrittenBackMemory(cfg, node, c, ev, q);
    AllAskedQuiet(cfg, node, WrittenBack(cfg, node, c, ev), ev.gets, q);
  }

  // ---------- Every event keeps the stack linked ----------

  lemma SettledLinked(cfg: Config, s: Pager, cluster: System, waiting: bool)
    requires Inv(s, {}) && s.socket && SystemOk(cfg, cluster)
    ensures Linked(cfg, Stack(Settled(cfg, s, cluster), cluster, waiting))
    ensures SameConfig(s, Settled(cfg, s, cluster))
  {
    FacingKeeps(s, Settled(cfg, s, cluster).server);
  }

  lemma StackStepLinks(cfg: Config, node: NodeId, c: Stack, ev: Event)
    requires Linked(cfg, c) && DistinctEndpoints(cfg) && DisjointRanges(cfg) && Possible(c, ev)
    ensures Linked(cfg, StackStep(cfg, node, c, ev).0)
    ensures SameConfig(c.client, StackStep(cfg, node, c, ev).0.client)
  {
    match ev
    case Cluster(a) =>
      NextOk(cfg, c.cluster, a);
      SettledLinked(cfg, c.client, Next(cfg, c.cluster, a), c.waiting);
    case Client(_, _, _) =>
      StepSystemOk(cfg, node, c, ev, 0);
      SettledLinked(cfg, c.client, ClusterAfter(cfg, node, c, ev), true);
      SettledLinked(cfg, Fetching(cfg, node, c, ev).0, ClusterAfter(cfg, node, c, ev), false);
  }

  /** A cluster whose memory is the same at absent pages leaves the client as it was. */
  lemma SettledSame(cfg: Config, c: Stack, cluster: System)
    requires Linked(cfg, c)
    requires forall p :: 0 <= p < |c.client.pages| && !c.client.pages[p].valid ==>
               Memory(cfg, cluster, p) == Memory(cfg, c.cluster, p)
    ensures Settled(cfg, c.client, cluster) == c.client
  {
    assert Settled(cfg, c.client, cluster).server == c.client.server;
  }

  /** A step of the cluster alone changes nothing the client sees. */
  lemma ClusterCouples(cfg: Config, node: NodeId, c: Stack, a: Action)
    requires Coupled(cfg, c) && DistinctEndpoints(cfg) && DisjointRanges(cfg) && !a.PutPage?
    ensures var d := StackStep(cfg, node, c, Cluster(a)).0;
            Coupled(cfg, d) && d.client == c.client
  {
    StackStepLinks(cfg, node, c, Cluster(a));
    forall p | 0 <= p < |c.client.pages|
      ensures Memory(cfg, Next(cfg, c.cluster, a), p) == Memory(cfg, c.cluster, p)
    {
      QuietMemory(cfg, c.cluster, a, p);
    }
    SettledSame(cfg, c, Next(cfg, c.cluster, a));
  }

  /** Nor does an operation that does not return. */
  lemma WaitingSeesNothing(cfg: Config, node: NodeId, c: Stack, ev: Event)
    requires Linked(cfg, c) && DistinctEndpoints(cfg) && DisjointRanges(cfg) && Possible(c, ev)
    requires ev.Client? && Waits(cfg, node, c, ev)
    ensures var (d, out) := StackStep(cfg, node, c, ev); d.waiting && out == None && d.client == c.client
  {
    forall p | 0 <= p < |c.client.pages| && !c.client.pages[p].valid
      ensures Memory(cfg, ClusterAfter(cfg, node, c, ev), p) == Memory(cfg, c.cluster, p)
    {
      StepSystemOk(cfg, node, c, ev, p);
      WrittenBackMemory(cfg, node, c, ev, p);
      VictimCached(c, ev, p);
    }
    SettledSame(cfg, c, ClusterAfter(cfg, node, c, ev));
  }

  // ---------- A client step, page by page ----------

  /** The bytes a page brought in holds are those the node replied with. */
  lemma FetchedFromCluster(cfg: Config, node: NodeId, c: Stack, ev: Event, q: nat)
    requires Linked(cfg, c) && Possible(c, ev) && ev.Client?
    requires BroughtIn(c, StackStep(cfg, node, c, ev).0, q)
    ensures var d := StackStep(cfg, node, c, ev).0;
            && d.client.pages[q].frame < |d.client.memory|
            && Answer(cfg, node, WrittenBack(cfg, node, c, ev), ev.gets, q) ==
               Some(d.client.memory[d.client.pages[q].frame])
  {
    var t := Fetching(cfg, node, c, ev).0;
    EntersFromReplies(cfg, node, c, ev, q);
    assert Enters(c.client, t, q) && !Waits(cfg, node, c, ev);
  }

  lemma EntersFromReplies(cfg: Config, node: NodeId, c: Stack, ev: Event, q: nat)
    requires Inv(c.client, {}) && c.client.socket && ev.Client? && OpOk(c.client, ev.op)
    requires Enters(c.client, Fetching(cfg, node, c, ev).0, q)
    ensures PageView(Fetching(cfg, node, c, ev).0, q) ==
            OrZeros(Answer(cfg, node, WrittenBack(cfg, node, c, ev), ev.gets, q))
  {
    var u, op := Facing(c.client, Replies(cfg, node, c, ev)), Wired(cfg, node, c, ev);
    FacingKeeps(c.client, Replies(cfg, node, c, ev));
    StepKeeps(u, op);
    var t := Fetching(cfg, node, c, ev).0;
    assert View(u)[q] == PageView(u, q) && View(t)[q] == PageView(t, q);
    assert op.Store? ==> t.pages == u.pages;
  }

  /** What becomes of the view of one page in a client step that returns, through the pager's own step. */
  lemma PageAfter(cfg: Config, node: NodeId, c: Stack, ev: Event, q: nat)
    requires Coupled(cfg, c) && DistinctEndpoints(cfg) && DisjointRanges(cfg) && Possible(c, ev)
    requires ev.Client? && !Waits(cfg, node, c, ev) && q < |c.client.pages|
    ensures var s, d, t := c.client, StackStep(cfg, node, c, ev).0, Fetching(cfg, node, c, ev).0;
            && Linked(cfg, d) && SameConfig(s, d.client) && d.client.pages == t.pages
            && (s.pages[q].valid ==> PageView(d.client, q) == PageView(t, q))
            && (!s.pages[q].valid && !t.pages[q].valid ==> PageView(d.client, q) == PageView(s, q))
            && (!s.pages[q].valid ==> PageView(s, q) == Memory(cfg, WrittenBack(cfg, node, c, ev), q))
  {
    StackStepLinks(cfg, node, c, ev);
    StepSystemOk(cfg, node, c, ev, q);
    WrittenBackMemory(cfg, node, c, ev, q);
    FetchingServer(cfg, node, c, ev, q);
    VictimCached(c, ev, q);
  }

  /** Except in a store, the view of a page survives exactly if the page was not brought in or was answered for. */
  lemma QuietPage(cfg: Config, node: NodeId, c: Stack, ev: Event, q: nat)
    requires Coupled(cfg, c) && DistinctEndpoints(cfg) && DisjointRanges(cfg) && Possible(c, ev)
    requires ev.Client? && !Waits(cfg, node, c, ev) && !ev.op.Store? && q < |c.client.pages|
    ensures var d := StackStep(cfg, node, c, ev).0;
            && Inv(d.client, {}) && |d.client.pages| == |c.client.pages|
            && (PageView(d.client, q) == PageView(c.client, q) <==>
                BroughtIn(c, d, q) ==> Answered(cfg, node, WrittenBack(cfg, node, c, ev), ev.gets, q))
  {
    PageAfter(cfg, node, c, ev, q);
    var d := StackStep(cfg, node, c, ev).0;
    if BroughtIn(c, d, q) {
      FetchedFromCluster(cfg, node, c, ev, q);
      WrittenBackMemory(cfg, node, c, ev, q);
      RepliesExactly(cfg, node, WrittenBack(cfg, node, c, ev), ev.gets, q);
    } else if c.client.pages[q].valid {
      CachedPageKept(cfg, node, c, ev, q);
    }
  }

  lemma CachedPageKept(cfg: Config, node: NodeId, c: Stack, ev: Event, q: nat)
    requires Inv(c.client, {}) && c.client.socket && ev.Client? && OpOk(c.client, ev.op) && !ev.op.Store?
    requires q < |c.client.pages| && c.client.pages[q].valid
    ensures PageView(Fetching(cfg, node, c, ev).0, q) == PageView(c.client, q)
  {
    var u, op := Facing(c.client, Replies(cfg, node, c, ev)), Wired(cfg, node, c, ev);
    FacingKeeps(c.client, Replies(cfg, node, c, ev));
    StepKeeps(u, op);
    var t := Fetching(cfg, node, c, ev).0;
    assert View(u)[q] == PageView(u, q) && View(t)[q] == PageView(t, q);
  }

  // ---------- One event ----------

  /** Every page the event brought into the cache was answered for. */
  ghost predicate AllAnswered(cfg: Config, node: NodeId, c: Stack, ev: Event)
    requires Inv(c.client, {}) && Possible(c, ev)
  {
    ev.Client? ==>
      forall q: u32 :: BroughtIn(c, StackStep(cfg, node, c, ev).0, q) ==>
        Answered(cfg, node, WrittenBack(cfg, node, c, ev), ev.gets, q)
  }

  /** To the client the event is a step of the memory it saw before, or no step at all. */
  ghost predicate FlatEvent(cfg: Config, node: NodeId, c: Stack, ev: Event)
    requires Linked(cfg, c) && DistinctEndpoints(cfg) && DisjointRanges(cfg) && Possible(c, ev)
  {
    StackStepLinks(cfg, node, c, ev);
    var (d, out) := StackStep(cfg, node, c, ev);
    if out.None? then View(d.client) == View(c.client)
    else FlatStep(View(c.client), Wired(cfg, node, c, ev), out.value, View(d.client))
  }

  lemma AnsweredCouples(cfg: Config, node: NodeId, c: Stack, ev: Event)
    requires Coupled(cfg, c) && DistinctEndpoints(cfg) && DisjointRanges(cfg) && Possible(c, ev)
    requires AllAnswered(cfg, node, c, ev)
    ensures Coupled(cfg, StackStep(cfg, node, c, ev).0)
  {
    StackStepLinks(cfg, node, c, ev);
    if ev.Cluster? {
      ClusterCouples(cfg, node, c, ev.a);
    } else if Waits(cfg, node, c, ev) {
      WaitingSeesNothing(cfg, node, c, ev);
    } else {
      forall q | 0 <= q < |c.client.pages|
        ensures var d := StackStep(cfg, node, c, ev).0; d.client.server[q] == Memory(cfg, d.cluster, q)
      {
        CopyIsMemory(cfg, node, c, ev, q);
      }
    }
  }

  lemma CopyIsMemory(cfg: Config, node: NodeId, c: Stack, ev: Event, q: nat)
    requires Coupled(cfg, c) && DistinctEndpoints(cfg) && DisjointRanges(cfg) && Possible(c, ev)
    requires ev.Client? && !Waits(cfg, node, c, ev) && AllAnswered(cfg, node, c, ev) && q < |c.client.pages|
    ensures var d := StackStep(cfg, node, c, ev).0;
            q < |d.client.server| && d.client.server[q] == Memory(cfg, d.cluster, q)
  {
    PageAfter(cfg, node, c, ev, q);
    StepSystemOk(cfg, node, c, ev, q);
    WrittenBackMemory(cfg, node, c, ev, q);
    FetchingServer(cfg, node, c, ev, q);
    VictimCached(c, ev, q);
    if BroughtIn(c, StackStep(cfg, node, c, ev).0, q) {
      RepliesExactly(cfg, node, WrittenBack(cfg, node, c, ev), ev.gets, q);
    }
  }

  /** One event is a step of the flat memory exactly if every page it brought in was answered for. */
  lemma EventFlatExactly(cfg: Config, node: NodeId, c: Stack, ev: Event)
    requires Coupled(cfg, c) && DistinctEndpoints(cfg) && DisjointRanges(cfg) && Possible(c, ev)
    ensures FlatEvent(cfg, node, c, ev) <==> AllAnswered(cfg, node, c, ev)
  {
    if ev.Cluster? {
      ClusterCouples(cfg, node, c, ev.a);
    } else if Waits(cfg, node, c, ev) {
      WaitingSeesNothing(cfg, node, c, ev);
    } else if ev.op.Store? {
      StoreIsFlat(cfg, node, c, ev);
    } else {
      ViewsExactly(cfg, node, c, ev);
      OutputFollows(cfg, node, c, ev);
    }
  }

  lemma ViewsExactly(cfg: Config, node: NodeId, c: Stack, ev: Event)
    requires Coupled(cfg, c) && DistinctEndpoints(cfg) && DisjointRanges(cfg) && Possible(c, ev)
    requires ev.Client? && !Waits(cfg, node, c, ev) && !ev.op.Store?
    ensures Inv(StackStep(cfg, node, c, ev).0.client, {})
    ensures View(StackStep(cfg, node, c, ev).0.client) == View(c.client) <==> AllAnswered(cfg, node, c, ev)
  {
    StackStepLinks(cfg, node, c, ev);
    var d := StackStep(cfg, node, c, ev).0;
    forall q | 0 <= q < |c.client.pages|
      ensures View(d.client)[q] == View(c.client)[q] <==>
              BroughtIn(c, d, q) ==> Answered(cfg, node, WrittenBack(cfg, node, c, ev), ev.gets, q)
    {
      QuietPage(cfg, node, c, ev, q);
    }
  }

  /** When no view changes, the output is what the flat memory says, too. */
  lemma OutputFollows(cfg: Config, node: NodeId, c: Stack, ev: Event)
    requires Linked(cfg, c) && DistinctEndpoints(cfg) && DisjointRanges(cfg) && Possible(c, ev)
    requires ev.Client? && !Waits(cfg, node, c, ev) && !ev.op.Store?
    requires Inv(StackStep(cfg, node, c, ev).0.client, {})
    ensures View(StackStep(cfg, node, c, ev).0.client) == View(c.client) <==> FlatEvent(cfg, node, c, ev)
  {
    StackStepLinks(cfg, node, c, ev);
    var u, op := Facing(c.client, Replies(cfg, node, c, ev)), Wired(cfg, node, c, ev);
    FacingKeeps(c.client, Replies(cfg, node, c, ev));
    StepKeeps(u, op);
    if op.Touch? {
      AccessKeeps(u, op.p, op.write, op.net);
      var d := StackStep(cfg, node, c, ev).0;
      assert View(d.client)[op.p] == PageView(d.client, op.p);
    }
  }

  /** A store brings nothing in and is always flat. */
  lemma StoreIsFlat(cfg: Config, node: NodeId, c: Stack, ev: Event)
    requires Coupled(cfg, c) && DistinctEndpoints(cfg) && DisjointRanges(cfg) && Possible(c, ev)
    requires ev.Client? && !Waits(cfg, node, c, ev) && ev.op.Store?
    ensures FlatEvent(cfg, node, c, ev) && AllAnswered(cfg, node, c, ev)
  {
    StackStepLinks(cfg, node, c, ev);
    var (d, out) := StackStep(cfg, node, c, ev);
    var p, data := ev.op.p, ev.op.data;
    forall q | 0 <= q < |c.client.pages|
      ensures View(d.client)[q] == if out == Some(Stored) && q == p then data else View(c.client)[q]
    {
      PageAfter(cfg, node, c, ev, q);
    }
    assert View(d.client) == if out == Some(Stored) then View(c.client)[p := data] else View(c.client);
  }

  // ---------- Runs ----------

  ghost predicate RunOk(cfg: Config, node: NodeId, c: Stack, evs: seq<Event>)
    requires Linked(cfg, c) && DistinctEndpoints(cfg) && DisjointRanges(cfg)
    decreases |evs|
  {
    evs != [] ==>
      && Possible(c, evs[0])
      && (StackStepLinks(cfg, node, c, evs[0]);
          RunOk(cfg, node, StackStep(cfg, node, c, evs[0]).0, evs[1..]))
  }

  /** The client's operations and outputs in a run, and the final state. */
  ghost function StackRun(cfg: Config, node: NodeId, c: Stack, evs: seq<Event>): (r: (Stack, seq<Op>, seq<Output>))
    requires Linked(cfg, c) && DistinctEndpoints(cfg) && DisjointRanges(cfg) && RunOk(cfg, node, c, evs)
    ensures Linked(cfg, r.0) && |r.1| == |r.2|
    decreases |evs|
  {
    if evs == [] then (c, [], [])
    else
      StackStepLinks(cfg, node, c, evs[0]);
      var (d, out) := StackStep(cfg, node, c, evs[0]);
      var (e, ops, outs) := StackRun(cfg, node, d, evs[1..]);
      if out.None? then (e, ops, outs)
      else (e, [Wired(cfg, node, c, evs[0])] + ops, [out.value] + outs)
  }

  /** Every event of the run is, to the client, a step of one flat memory. */
  ghost predicate FlatThroughout(cfg: Config, node: NodeId, c: Stack, evs: seq<Event>)
    requires Linked(cfg, c) && DistinctEndpoints(cfg) && DisjointRanges(cfg) && RunOk(cfg, node, c, evs)
    decreases |evs|
  {
    evs != [] ==>
      && FlatEvent(cfg, node, c, evs[0])
      && (StackStepLinks(cfg, node, c, evs[0]);
          FlatThroughout(cfg, node, StackStep(cfg, node, c, evs[0]).0, evs[1..]))
  }

  /** Every page brought into the cache in the run was answered for when it was asked. */
  ghost predicate AnsweredThroughout(cfg: Config, node: NodeId, c: Stack, evs: seq<Event>)
    requires Linked(cfg, c) && DistinctEndpoints(cfg) && DisjointRanges(cfg) && RunOk(cfg, node, c, evs)
    decreases |evs|
  {
    evs != [] ==>
      && AllAnswered(cfg, node, c, evs[0])
      && (StackStepLinks(cfg, node, c, evs[0]);
          AnsweredThroughout(cfg, node, StackStep(cfg, node, c, evs[0]).0, evs[1..]))
  }

  /**
   The client over the cluster sees one flat memory all through a run if and only if every
   page it fetched or prefetched was all zero or had, when it was asked for, a running owner
   whose storage covers it and which the client's node is or can reach: listed as not dead,
   over a connection that is sound and does not break. This is so whatever becomes of its
   own connection, and of the operations that never return.
   */
  lemma {:induction false} ClusterClientIsFlat(cfg: Config, node: NodeId, c: Stack, evs: seq<Event>)
    requires Coupled(cfg, c) && DistinctEndpoints(cfg) && DisjointRanges(cfg) && RunOk(cfg, node, c, evs)
    ensures FlatThroughout(cfg, node, c, evs) <==> AnsweredThroughout(cfg, node, c, evs)
    decreases |evs|
  {
    if evs == [] {
    } else {
      StackStepLinks(cfg, node, c, evs[0]);
      EventFlatExactly(cfg, node, c, evs[0]);
      if AllAnswered(cfg, node, c, evs[0]) {
        AnsweredCouples(cfg, node, c, evs[0]);
        ClusterClientIsFlat(cfg, node, StackStep(cfg, node, c, evs[0]).0, evs[1..]);
      }
    }
  }

  /** Being flat throughout, the operations and outputs are a run of the memory the client first saw. */
  lemma {:induction false} FlatThroughoutIsFlatRun(cfg: Config, node: NodeId, c: Stack, evs: seq<Event>)
    requires Linked(cfg, c) && DistinctEndpoints(cfg) && DisjointRanges(cfg) && RunOk(cfg, node, c, evs)
    requires FlatThroughout(cfg, node, c, evs)
    ensures var (d, ops, outs) := StackRun(cfg, node, c, evs); FlatRun(View(c.client), ops, outs, View(d.client))
    decreases |evs|
  {
    if evs == [] {
    } else {
      StackStepLinks(cfg, node, c, evs[0]);
      var (d, out) := StackStep(cfg, node, c, evs[0]);
      FlatThroughoutIsFlatRun(cfg, node, d, evs[1..]);
      var (e, ops, outs) := StackRun(cfg, node, d, evs[1..]);
      if out.Some? {
        var op := Wired(cfg, node, c, evs[0]);
        assert ([op] + ops)[1..] == ops && ([out.value] + outs)[1..] == outs;
      }
    }
  }

  // ---------- What a writeback's fate means to the client ----------

  /** Page v, dirty and from the server, is the one an eviction would take now. */
  ghost predicate MustSend(s: Pager, d: nat, v: nat)
    requires Inv(s, {})
  {
    && s.free == [] && Full(s) && StopsAfter(s, d) && s.frames[ClockAt(s.hand, d, |s.frames|)].page == v
    && v < |s.pages| && s.pages[v].dirty && s.pages[v].location == Remote
  }

  lemma MustSendIt(s: Pager, op: Op, d: nat, v: nat)
    requires Inv(s, {}) && OpOk(s, op) && op.Touch? && !s.pages[op.p].valid && MustSend(s, d, v)
    ensures WritesBack(s, op).Some? && WritesBack(s, op).value.0 == v
  {
    StopsOnce(s, d);
    VictimEntry(s, d);
  }

  /**
   A miss that has to send its victim first: if the client's own connection fails, before
   the PUT gets to the node or before its acknowledgement gets back, the access fails; if the
   connection holds and the PUT is not acknowledged, the access does not return.
   */
  lemma WritebackFate(cfg: Config, node: NodeId, c: Stack, ev: Event, d: nat, v: u32)
    requires Linked(cfg, c) && Possible(c, ev) && ev.Client? && ev.op.Touch? && !c.client.pages[ev.op.p].valid
    requires MustSend(c.client, d, v)
    ensures ev.op.net.put.PutFailed? ==> StackStep(cfg, node, c, ev).1 == Some(Output.Failed)
    ensures ev.op.net.put.PutAcked? && !Acked(cfg, c.cluster, node, v, ev.links) ==>
              StackStep(cfg, node, c, ev).1 == None && StackStep(cfg, node, c, ev).0.waiting
  {
    MustSendIt(c.client, ev.op, d, v);
    if ev.op.net.put.PutFailed? {
      FailedPutFails(cfg, node, c, ev);
    }
  }

  lemma FailedPutFails(cfg: Config, node: NodeId, c: Stack, ev: Event)
    requires Linked(cfg, c) && Possible(c, ev) && ev.Client? && ev.op.Touch? && !c.client.pages[ev.op.p].valid
    requires WritesBack(c.client, ev.op).Some? && ev.op.net.put.PutFailed?
    ensures !Waits(cfg, node, c, ev) && Fetching(cfg, node, c, ev).1.Failed?
  {
    var replies, op := Replies(cfg, node, c, ev), Wired(cfg, node, c, ev);
    FacingWritesBack(c.client, replies, op);
    FailedPutStep(Facing(c.client, replies), op);
  }

  lemma FailedPutStep(s: Pager, op: Op)
    requires Inv(s, {}) && OpOk(s, op) && op.Touch? && !s.pages[op.p].valid
    requires WritesBack(s, op).Some? && op.net.put.PutFailed?
    ensures var (t, out) := Step(s, op); out.Failed? && forall q: nat :: !Enters(s, t, q)
  {
    AccessKeeps(s, op.p, op.write, op.net);
    FailedMissKeeps(s, op.p, op.write, op.net);
    ObtainCountsPages(s, op.net.put);
    assert Resident(Step(s, op).0) == Resident(Obtain(s, op.net.put).0);
    forall q: nat
      ensures !Enters(s, Step(s, op).0, q)
    {
      assert q in Resident(Step(s, op).0) ==> q in Resident(s);
    }
  }

  // ---------- Where it starts, and where it fails ----------

  /** A new client of a running cluster. */
  ghost function NewStack(cfg: Config, cluster: System, numPages: nat, numVirtual: nat, memory: seq<Page>): Stack
    requires 1 <= numPages <= UINT32_MAX && numVirtual <= UINT32_MAX && |memory| == numPages
  {
    var server := seq(numVirtual, p requires 0 <= p < numVirtual => Memory(cfg, cluster, p));
    Stack(Create(numPages, numVirtual, true, memory, server), cluster, false)
  }

  /** It is coupled, at whatever point of a run of the cluster it starts, the empty one included. */
  lemma NewStackCoupled(cfg: Config, acts: seq<Action>, numPages: nat, numVirtual: nat, memory: seq<Page>)
    requires DistinctEndpoints(cfg) && 1 <= numPages <= UINT32_MAX && numVirtual <= UINT32_MAX && |memory| == numPages
    ensures Coupled(cfg, NewStack(cfg, Behave(cfg, acts), numPages, numVirtual, memory))
  {
    BehaveOk(cfg, acts);
    var c := NewStack(cfg, Behave(cfg, acts), numPages, numVirtual, memory);
    CreateEstablishes(numPages, numVirtual, true, memory, c.client.server);
  }

  /**
   A miss whose writeback, if any, is acknowledged and whose own connection holds shows the
   client the node's reply, whatever that is, and does not return if there is none.
   */
  lemma MissShowsReply(cfg: Config, node: NodeId, c: Stack, ev: Event)
    requires Inv(c.client, {}) && c.client.socket && Possible(c, ev)
    requires ev.Client? && ev.op.Touch? && !c.client.pages[ev.op.p].valid && !PutWaits(cfg, node, c, ev)
    requires Wired(cfg, node, c, ev).net.put.PutAcked? && ev.op.net.get.GetOk?
    ensures var (d, out) := StackStep(cfg, node, c, ev);
            match Answer(cfg, node, WrittenBack(cfg, node, c, ev), ev.gets, ev.op.p)
            case None => d.waiting && out == None
            case Some(data) => out == None || out == Some(Exposed(data))
  {
    MissEnters(cfg, node, c, ev);
    if Waits(cfg, node, c, ev) {
      assert StackStep(cfg, node, c, ev).1 == None;
    } else {
      assert StackStep(cfg, node, c, ev).1 == Some(Fetching(cfg, node, c, ev).1);
    }
  }

  lemma MissEnters(cfg: Config, node: NodeId, c: Stack, ev: Event)
    requires Inv(c.client, {}) && c.client.socket && ev.Client? && OpOk(c.client, ev.op)
    requires ev.op.Touch? && !c.client.pages[ev.op.p].valid
    requires Wired(cfg, node, c, ev).net.put.PutAcked? && ev.op.net.get.GetOk?
    ensures var (t, out) := Fetching(cfg, node, c, ev);
            && Enters(c.client, t, ev.op.p)
            && out == Exposed(OrZeros(Answer(cfg, node, WrittenBack(cfg, node, c, ev), ev.gets, ev.op.p)))
  {
    var u, op := Facing(c.client, Replies(cfg, node, c, ev)), Wired(cfg, node, c, ev);
    FacingKeeps(c.client, Replies(cfg, node, c, ev));
    MissExposes(u, op);
  }

  /** The first access of a new client waits for its own page or for none. */
  lemma OnlyItsPage(cfg: Config, node: NodeId, c: Stack, ev: Event)
    requires Inv(c.client, {}) && ev.Client? && ev.op.Touch? && OpOk(c.client, ev.op) && c.client.free != []
    requires forall q :: 0 <= q < |c.client.pages| ==> Unvisited(c.client, q)
    requires Answer(cfg, node, WrittenBack(cfg, node, c, ev), ev.gets, ev.op.p).Some?
    ensures !Waits(cfg, node, c, ev)
  {
    forall q: u32 | Enters(c.client, Fetching(cfg, node, c, ev).0, q)
      ensures q == ev.op.p
    {
      if q != ev.op.p { OthersStayOut(cfg, node, c, ev, q); }
    }
  }

  lemma OthersStayOut(cfg: Config, node: NodeId, c: Stack, ev: Event, q: nat)
    requires Inv(c.client, {}) && ev.Client? && ev.op.Touch? && OpOk(c.client, ev.op)
    requires q < |c.client.pages| && Unvisited(c.client, q) && q != ev.op.p
    ensures !Enters(c.client, Fetching(cfg, node, c, ev).0, q)
  {
    FacingKeeps(c.client, Replies(cfg, node, c, ev));
    StepUnvisited(Facing(c.client, Replies(cfg, node, c, ev)), Wired(cfg, node, c, ev), q);
  }

  /** A new client of one frame, after a run of the cluster, and its read of one page. */
  ghost function LateClient(cfg: Config, acts: seq<Action>, page: u32): Stack
    requires page < UINT32_MAX
  {
    NewStack(cfg, Behave(cfg, acts), 1, page + 1, [ZERO_PAGE])
  }

  function ReadOf(page: u32, links: seq<Link>): Event {
    Client(Touch(page, false, Net(PutAcked, GetOk, true)), [], [Ask(page, links)])
  }

  lemma LateRead(cfg: Config, acts: seq<Action>, node: NodeId, page: u32, links: seq<Link>)
    requires DistinctEndpoints(cfg) && page < UINT32_MAX
    ensures var c, ev := LateClient(cfg, acts, page), ReadOf(page, links);
            && Coupled(cfg, c) && Possible(c, ev)
            && View(c.client)[page] == Memory(cfg, Behave(cfg, acts), page)
            && match Reply(cfg, Behave(cfg, acts), node, page, links)
               case None => StackStep(cfg, node, c, ev).0.waiting
               case Some(data) => StackStep(cfg, node, c, ev).1 == Some(Exposed(data))
  {
    var c, ev := LateClient(cfg, acts, page), ReadOf(page, links);
    NewStackCoupled(cfg, acts, 1, page + 1, [ZERO_PAGE]);
    assert Answer(cfg, node, c.cluster, ev.gets, page) == Reply(cfg, c.cluster, node, page, links);
    MissShowsReply(cfg, node, c, ev);
    if Reply(cfg, c.cluster, node, page, links).Some? { OnlyItsPage(cfg, node, c, ev); }
  }

  /** A page PUT through its owner a, and b has not heard of a. */
  function LostPut(a: NodeId, b: NodeId, page: u32, data: Page): seq<Action> {
    [Start(a, 0), Start(b, 0), PutPage(a, page, data, [])]
  }

  /** A new client at b sees the page as it was PUT, reads it, and is handed zeros, without any error. */
  lemma {:induction false} LostRead(cfg: Config, a: NodeId, b: NodeId, page: u32, data: Page, links: seq<Link>)
    requires DistinctEndpoints(cfg) && DisjointRanges(cfg) && a != b && b in cfg
    requires InRange(cfg, a, page) && page < cfg[a].storagePages && page < UINT32_MAX
    ensures var c, ev := LateClient(cfg, LostPut(a, b, page, data), page), ReadOf(page, links);
            && Coupled(cfg, c) && Possible(c, ev)
            && View(c.client)[page] == data
            && StackStep(cfg, b, c, ev).1 == Some(Exposed(ZERO_PAGE))
  {
    LateRead(cfg, LostPut(a, b, page, data), b, page, links);
    UnheardOwnerReadsZeros(cfg, a, b, page, data, links);
    MemoryIsLastPut(cfg, LostPut(a, b, page, data), page);
  }

  /** A new client of a node that owns pages beyond its storage reads one, and its call does not return. */
  lemma {:induction false} HungRead(cfg: Config, o: NodeId, page: u32)
    requires DistinctEndpoints(cfg) && DisjointRanges(cfg)
    requires InRange(cfg, o, page) && page >= cfg[o].storagePages && page < UINT32_MAX
    ensures var c, ev := LateClient(cfg, [Start(o, 0)], page), ReadOf(page, []);
            Coupled(cfg, c) && Possible(c, ev) && StackStep(cfg, o, c, ev).0.waiting
  {
    LateRead(cfg, [Start(o, 0)], o, page, []);
    BeyondStorageNoReply(cfg, o, page);
  }

  const OWNER: NodeId := seq(NODE_ID_LEN, _ => 1)
  const READER: NodeId := seq(NODE_ID_LEN, _ => 2)
  const ONES: Page := seq(PAGE_SIZE, _ => 1)

  /** Two nodes on one host, each owning one page, the second without storage for its own. */
  const TWO_NODES: Config :=
    map[OWNER := NodeConfig(1, 1, 9001, 9101, 0, 1, 3000, 1), READER := NodeConfig(1, 1, 9002, 9102, 1, 2, 3000, 1)]

  /** Two such runs: a page of ones is stored and acknowledged, and read as zeros; a read does not return. */
  lemma {:induction false} LostReadHappens()
    ensures DistinctEndpoints(TWO_NODES) && DisjointRanges(TWO_NODES)
    ensures var c, ev := LateClient(TWO_NODES, LostPut(OWNER, READER, 0, ONES), 0), ReadOf(0, []);
            && Coupled(TWO_NODES, c) && Possible(c, ev)
            && View(c.client)[0] == ONES
            && StackStep(TWO_NODES, READER, c, ev).1 == Some(Exposed(ZERO_PAGE))
            && ONES != ZERO_PAGE
    ensures var c, ev := LateClient(TWO_NODES, [Start(READER, 0)], 1), ReadOf(1, []);
            Coupled(TWO_NODES, c) && Possible(c, ev) && StackStep(TWO_NODES, READER, c, ev).0.waiting
  {
    assert OWNER[0] != READER[0] && ONES[0] != ZERO_PAGE[0];
    LostRead(TWO_NODES, OWNER, READER, 0, ONES, []);
    HungRead(TWO_NODES, READER, 1);
  }
}
