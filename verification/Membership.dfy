/**
 The membership table of one cluster node: merging what gossip says, aging what it does
 not say, and looking up the owner of a page.
 */
module Membership {
  import opened Base
  import opened GossipCodec

  const CLUSTER_MAX_NODES: nat := 64

  const GOSSIP_FANOUT: nat := 3

  const ALIVE: byte := 1
  const SUSPECT: byte := 2
  const DEAD: byte := 3

  /** `cluster_node_t`. */
  datatype Member = Member(
    id: NodeId, addr: u32, clientPort: u16, clusterPort: u16,
    rangeStart: u32, rangeEnd: u32, lastSeen: u64, incarnation: u32, state: byte)

  type Table = seq<Member>

  // ---------- Between table entries and wire entries ----------

  /** `cluster_node_to_gossip`. */
  function ToWire(m: Member): WireNode {
    WireNode(m.id, m.addr, m.clientPort, m.clusterPort, m.rangeStart, m.rangeEnd, m.incarnation, m.state, Zeros(3))
  }

  /** `gossip_node_to_cluster`. */
  function FromWire(n: WireNode): Member {
    Member(n.id, n.addr, n.clientPort, n.clusterPort, n.rangeStart, n.rangeEnd, 0, n.incarnation, n.state)
  }

  /** An entry survives the trip over the wire in everything but `lastSeen`; a wire entry but for its padding. */
  lemma WireRoundTrip(m: Member, n: WireNode)
    ensures FromWire(ToWire(m)) == m.(lastSeen := 0)
    ensures ToWire(FromWire(n)) == n.(pad := Zeros(3))
  {
  }

  // ---------- Table operations ----------

  predicate Distinct(t: Table) {
    forall i, j :: 0 <= i < j < |t| ==> t[i].id != t[j].id
  }

  /** `find_node_by_id`: the first index with this id, or -1. */
  function Find(t: Table, id: NodeId): (i: int)
    ensures -1 <= i < |t|
    ensures i >= 0 ==> t[i].id == id && forall j :: 0 <= j < i ==> t[j].id != id
    ensures i < 0 ==> forall j :: 0 <= j < |t| ==> t[j].id != id
  {
    FindFrom(t, id, 0)
  }

  function FindFrom(t: Table, id: NodeId, k: nat): (i: int)
    requires k <= |t|
    ensures i == -1 || k <= i < |t|
    ensures i >= 0 ==> t[i].id == id && forall j :: k <= j < i ==> t[j].id != id
    ensures i < 0 ==> forall j :: k <= j < |t| ==> t[j].id != id
    decreases |t| - k
  {
    if k == |t| then -1 else if t[k].id == id then k else FindFrom(t, id, k + 1)
  }

  /** An existing entry after being mentioned as `m` at time `now`. */
  function Refresh(e: Member, m: Member, now: u64): Member
  {
    if m.incarnation > e.incarnation then m.(id := e.id, lastSeen := now)
    else if m.incarnation == e.incarnation then
      e.(lastSeen := now, state := if m.state == ALIVE then ALIVE else e.state)
    else e
  }

  /** `merge_node`. */
  function Merge(t: Table, m: Member, now: u64): Table {
    var i := Find(t, m.id);
    if i >= 0 then t[i := Refresh(t[i], m, now)]
    else if |t| < CLUSTER_MAX_NODES then t + [m.(lastSeen := now)]
    else t
  }

  /** Time since an entry was refreshed, in the program's 64-bit unsigned arithmetic. */
  function Elapsed(e: Member, now: u64): u64 {
    if now >= e.lastSeen then now - e.lastSeen else now + TWO_64 - e.lastSeen
  }

  /** One entry under the heartbeat tick. */
  function AgeOne(e: Member, now: u64, timeout: u32): Member {
    if e.state == ALIVE && Elapsed(e, now) > timeout / 2 then e.(state := SUSPECT)
    else if e.state == SUSPECT && Elapsed(e, now) > timeout then e.(state := DEAD)
    else e
  }

  /** The aging loop of the heartbeat: every entry but the node's own. */
  function Age(t: Table, self: nat, now: u64, timeout: u32): Table {
    seq(|t|, i requires 0 <= i < |t| => if i == self then t[i] else AgeOne(t[i], now, timeout))
  }

  predicate Owns(e: Member, page: u32) {
    e.state != DEAD && e.rangeStart <= page < e.rangeEnd
  }

  /** `cluster_get_owner`: the first entry that is not dead and covers the page. */
  function Owner(t: Table, page: u32): (r: Option<Member>)
    ensures r.Some? ==> r.value in t && Owns(r.value, page)
    ensures r.Some? ==> exists i :: 0 <= i < |t| && t[i] == r.value && forall j :: 0 <= j < i ==> !Owns(t[j], page)
    ensures r.None? ==> forall e :: e in t ==> !Owns(e, page)
  {
    if t == [] then None else if Owns(t[0], page) then Some(t[0]) else Owner(t[1..], page)
  }

  lemma FirstOwns(t: Table, page: u32, i: nat)
    requires i < |t| && Owns(t[i], page)
    requires forall j :: 0 <= j < i ==> !Owns(t[j], page)
    ensures Owner(t, page) == Some(t[i])
  {
    var o := Owner(t, page);
    assert o.Some? && Owns(o.value, page);
    var k :| 0 <= k < |t| && t[k] == o.value && forall j :: 0 <= j < k ==> !Owns(t[j], page);
    assert k == i;
  }

  /** There is an owner exactly if some entry covers the page and is ALIVE or SUSPECT, or anything but DEAD. */
  lemma OwnerExactly(t: Table, page: u32)
    ensures Owner(t, page).Some? <==>
            exists i :: 0 <= i < |t| && t[i].state != DEAD && t[i].rangeStart <= page < t[i].rangeEnd
  {
    if i :| 0 <= i < |t| && t[i].state != DEAD && t[i].rangeStart <= page < t[i].rangeEnd {
      assert t[i] in t;
    }
  }

  /** It is the first such entry: those before it are DEAD or cover other pages. */
  lemma OwnerIsFirst(t: Table, page: u32) returns (i: nat)
    requires Owner(t, page).Some?
    ensures i < |t| && Owner(t, page).value == t[i]
    ensures t[i].state != DEAD && t[i].rangeStart <= page < t[i].rangeEnd
    ensures forall j :: 0 <= j < i ==> t[j].state == DEAD || page < t[j].rangeStart || t[j].rangeEnd <= page
  {
    i :| 0 <= i < |t| && t[i] == Owner(t, page).value && forall j :: 0 <= j < i ==> !Owns(t[j], page);
  }

  /** A peer the heartbeat may ping. */
  predicate Pingable(t: Table, self: nat, i: nat)
    requires i < |t|
  {
    i != self && t[i].state != DEAD
  }

  /** How many pingable peers come before index i. */
  function Rank(t: Table, self: nat, i: nat): nat
    requires i <= |t|
  {
    if i == 0 then 0 else Rank(t, self, i - 1) + (if Pingable(t, self, i - 1) then 1 else 0)
  }

  /** The first `room` pingable peers from index i on. */
  function Targets(t: Table, self: nat, i: nat, room: nat): seq<nat>
    requires i <= |t|
    decreases |t| - i
  {
    if i == |t| || room == 0 then []
    else if Pingable(t, self, i) then [i] + Targets(t, self, i + 1, room - 1)
    else Targets(t, self, i + 1, room)
  }

  /** A peer is pinged exactly if it is not dead and fewer than `room` such peers come before it. */
  lemma {:induction false} PingedExactly(t: Table, self: nat, i: nat, room: nat, j: nat)
    requires i <= j < |t|
    ensures j in Targets(t, self, i, room) <==>
            Pingable(t, self, j) && Rank(t, self, j) < Rank(t, self, i) + room
    decreases |t| - i
  {
    RankRises(t, self, i, j);
    if room == 0 {
    } else {
      TargetsFrom(t, self, i + 1, room);
      TargetsFrom(t, self, i + 1, room - 1);
      if i < j {
        PingedExactly(t, self, i + 1, if Pingable(t, self, i) then room - 1 else room, j);
      }
    }
  }

  /** The peers before index j that are not dead. */
  function LivePeersBefore(t: Table, self: nat, j: nat): set<nat>
    requires j <= |t|
  {
    set i: nat | i < j && i != self && t[i].state != DEAD
  }

  lemma {:induction false} RankCounts(t: Table, self: nat, j: nat)
    requires j <= |t|
    ensures Rank(t, self, j) == |LivePeersBefore(t, self, j)|
  {
    if j == 0 {
      assert LivePeersBefore(t, self, 0) == {};
    } else {
      RankCounts(t, self, j - 1);
      var before := LivePeersBefore(t, self, j - 1);
      var more := j - 1 != self && t[j - 1].state != DEAD;
      assert LivePeersBefore(t, self, j) == if more then before + {j - 1} else before;
    }
  }

  /** The heartbeat pings exactly the first three peers that are not DEAD, suspects among them. */
  lemma FirstThreePinged(t: Table, self: nat, j: nat)
    ensures j in Targets(t, self, 0, 3) <==>
            j < |t| && j != self && t[j].state != DEAD && |LivePeersBefore(t, self, j)| < 3
  {
    if j < |t| {
      PingedExactly(t, self, 0, 3, j);
      RankCounts(t, self, j);
    } else {
      TargetsFrom(t, self, 0, 3);
    }
  }

  lemma {:induction false} TargetsFrom(t: Table, self: nat, i: nat, room: nat)
    requires i <= |t|
    ensures forall j :: j in Targets(t, self, i, room) ==> i <= j < |t|
    decreases |t| - i
  {
    if i >= |t| || room == 0 {
    } else {
      TargetsFrom(t, self, i + 1, room);
      TargetsFrom(t, self, i + 1, room - 1);
    }
  }

  lemma {:induction false} RankRises(t: Table, self: nat, i: nat, j: nat)
    requires i <= j <= |t|
    ensures Rank(t, self, i) <= Rank(t, self, j)
    decreases j
  {
    if i == j {
    } else {
      RankRises(t, self, i, j - 1);
    }
  }

  // ---------- Gossip messages and runs of events ----------

  function FromSelf(self: Member, kind: byte, nodes: seq<WireNode>): Message {
    Message(kind, self.clientPort, self.id, self.incarnation, self.rangeStart, self.rangeEnd, nodes)
  }

  function Ping(self: Member): Message {
    FromSelf(self, PING, [])
  }

  function Join(self: Member): Message {
    FromSelf(self, JOIN, [ToWire(self)])
  }

  /** A PONG lists the first entries of the table, as many as a message may hold. */
  function Pong(self: Member, t: Table): (m: Message)
    ensures |m.nodes| <= GOSSIP_MSG_MAX_NODES
  {
    var n := if |t| > GOSSIP_MSG_MAX_NODES then GOSSIP_MSG_MAX_NODES else |t|;
    FromSelf(self, PONG, seq(n, i requires 0 <= i < n => ToWire(t[i])))
  }

  /** What each message tells its receiver: a PING nothing, a JOIN the sender, a PONG the table's front. */
  lemma EntriesCarried(self: Member, t: Table)
    ensures Ping(self).nodes == []
    ensures |Join(self).nodes| == 1 && FromWire(Join(self).nodes[0]) == self.(lastSeen := 0)
    ensures |Pong(self, t).nodes| == (if |t| > GOSSIP_MSG_MAX_NODES then GOSSIP_MSG_MAX_NODES else |t|)
    ensures forall i :: 0 <= i < |Pong(self, t).nodes| ==> FromWire(Pong(self, t).nodes[i]) == t[i].(lastSeen := 0)
  {
  }

  /** The sender of a message, as its receiver sees it: alive, at the datagram's source address. */
  function Sender(m: Message, addr: u32, port: u16): Member {
    Member(m.sender, addr, m.clientPort, port, m.rangeStart, m.rangeEnd, 0, m.incarnation, ALIVE)
  }

  /** What can happen to a table: an entry is mentioned, or the heartbeat ticks. */
  datatype Event = Mention(m: Member, now: u64) | Beat(now: u64)

  function After(t: Table, self: nat, timeout: u32, ev: Event): Table {
    match ev
    case Mention(m, now) => Merge(t, m, now)
    case Beat(now) => Age(t, self, now, timeout)
  }

  function Run(t: Table, self: nat, timeout: u32, evs: seq<Event>): Table {
    if evs == [] then t
    else After(Run(t, self, timeout, evs[..|evs| - 1]), self, timeout, evs[|evs| - 1])
  }

  lemma RunNext(t: Table, self: nat, timeout: u32, evs: seq<Event>, k: nat)
    requires k < |evs|
    ensures Run(t, self, timeout, evs[..k + 1]) == After(Run(t, self, timeout, evs[..k]), self, timeout, evs[k])
  {
    assert evs[..k + 1][..k] == evs[..k];
  }

  /** The merges of `handle_gossip_msg`, the sender first, then every listed node; `clock` is what each reads. */
  function Mentions(m: Message, addr: u32, port: u16, clock: nat -> u64): seq<Event> {
    [Mention(Sender(m, addr, port), clock(0))]
    + seq(|m.nodes|, i requires 0 <= i < |m.nodes| => Mention(FromWire(m.nodes[i]), clock(i + 1)))
  }

  // ---------- What every merge and tick keeps ----------

  /**
   Old entries keep their index and identity, no incarnation falls, and the table only
   grows: so a connection cached under an index stays with its node.
   */
  ghost predicate Extends(t: Table, u: Table) {
    && |t| <= |u|
    && forall i :: 0 <= i < |t| ==> u[i].id == t[i].id && u[i].incarnation >= t[i].incarnation
  }

  lemma MergeKeeps(t: Table, m: Member, now: u64)
    requires Distinct(t) && |t| <= CLUSTER_MAX_NODES
    ensures var u := Merge(t, m, now); Distinct(u) && |u| <= CLUSTER_MAX_NODES && Extends(t, u)
  {
  }

  lemma AgeKeeps(t: Table, self: nat, now: u64, timeout: u32)
    requires Distinct(t) && |t| <= CLUSTER_MAX_NODES
    ensures var u := Age(t, self, now, timeout); Distinct(u) && |u| <= CLUSTER_MAX_NODES && Extends(t, u)
  {
  }

  // ---------- The table as the program keeps it ----------

  class ClusterState {
    const nodes: array<Member>
    var count: nat
    const selfIdx: nat

    ghost predicate Valid()
      reads this, nodes
    {
      nodes.Length == CLUSTER_MAX_NODES && count <= nodes.Length && selfIdx < count && Distinct(nodes[..count])
    }

    ghost function Model(): Table
      requires count <= nodes.Length
      reads this, nodes
    {
      nodes[..count]
    }

    /** The table part of `cluster_create`: the node itself, alive, at index 0. */
    constructor (self: Member)
      ensures Valid() && fresh(nodes) && Model() == [self] && selfIdx == 0
    {
      nodes := new Member[CLUSTER_MAX_NODES](_ => self);
      count := 1;
      selfIdx := 0;
    }

    /** `find_node_by_id`. */
    method FindById(id: NodeId) returns (r: int)
      requires Valid()
      ensures r == Find(Model(), id)
    {
      for i := 0 to count
        invariant forall j :: 0 <= j < i ==> nodes[j].id != id
      {
        if nodes[i].id == id {
          assert Model()[i].id == id;
          return i;
        }
      }
      return -1;
    }

    /** `merge_node`. */
    method MergeNode(m: Member, now: u64)
      requires Valid()
      modifies this`count, nodes
      ensures Valid() && Model() == Merge(old(Model()), m, now) && Extends(old(Model()), Model())
    {
      ghost var t := Model();
      MergeKeeps(t, m, now);
      var i := FindById(m.id);
      if i >= 0 {
        var e := nodes[i];
        if m.incarnation > e.incarnation {
          nodes[i] := m.(id := e.id, lastSeen := now);
        } else if m.incarnation == e.incarnation {
          e := e.(lastSeen := now);
          if m.state == ALIVE {
            e := e.(state := ALIVE);
          }
          nodes[i] := e;
        }
        assert nodes[..count] == t[i := Refresh(t[i], m, now)];
      } else if count < CLUSTER_MAX_NODES {
        nodes[count] := m.(lastSeen := now);
        count := count + 1;
        assert nodes[..count] == t + [m.(lastSeen := now)];
      }
    }

    /** The merging part of `handle_gossip_msg`. */
    method HandleGossip(msg: Message, addr: u32, port: u16, clock: nat -> u64, ghost timeout: u32)
      requires Valid()
      modifies this`count, nodes
      ensures Valid() && Model() == Run(old(Model()), selfIdx, timeout, Mentions(msg, addr, port, clock))
    {
      ghost var t, evs := Model(), Mentions(msg, addr, port, clock);
      MergeNode(Sender(msg, addr, port), clock(0));
      RunNext(t, selfIdx, timeout, evs, 0);
      for i := 0 to |msg.nodes|
        invariant Valid() && Model() == Run(t, selfIdx, timeout, evs[..i + 1])
      {
        RunNext(t, selfIdx, timeout, evs, i + 1);
        MergeNode(FromWire(msg.nodes[i]), clock(i + 1));
      }
      assert evs[..|evs|] == evs;
    }

    /** `gossip_send_pong` up to the send: the message it builds from the table. */
    method BuildPong(self: Member) returns (msg: Message)
      requires Valid()
      ensures msg == Pong(self, Model())
    {
      var n := if count > GOSSIP_MSG_MAX_NODES then GOSSIP_MSG_MAX_NODES else count;
      var wire: seq<WireNode> := [];
      for i := 0 to n
        invariant |wire| == i && forall j :: 0 <= j < i ==> wire[j] == ToWire(nodes[j])
      {
        wire := wire + [ToWire(nodes[i])];
      }
      msg := FromSelf(self, PONG, wire);
    }

    /** The aging loop of `heartbeat_loop`. */
    method Tick(now: u64, timeout: u32)
      requires Valid()
      modifies nodes
      ensures Valid() && Model() == Age(old(Model()), selfIdx, now, timeout)
    {
      ghost var t := Model();
      AgeKeeps(t, selfIdx, now, timeout);
      for i := 0 to count
        invariant forall j :: 0 <= j < i ==> nodes[j] == Age(t, selfIdx, now, timeout)[j]
        invariant forall j :: i <= j < count ==> nodes[j] == t[j]
      {
        if i != selfIdx {
          var e := nodes[i];
          var elapsed := Elapsed(e, now);
          if e.state == ALIVE && elapsed > timeout / 2 {
            nodes[i] := e.(state := SUSPECT);
          } else if e.state == SUSPECT && elapsed > timeout {
            nodes[i] := e.(state := DEAD);
          }
        }
      }
      assert nodes[..count] == Age(t, selfIdx, now, timeout);
    }

    /** The ping loop of `heartbeat_loop`: the first three peers that are not dead. */
    method PingTargets() returns (targets: seq<nat>)
      requires Valid()
      ensures targets == Targets(Model(), selfIdx, 0, GOSSIP_FANOUT)
      ensures forall j: nat :: j in targets <==>
                && j < |Model()| && j != selfIdx && Model()[j].state != DEAD
                && |LivePeersBefore(Model(), selfIdx, j)| < 3
    {
      targets := FirstTargets();
      forall j: nat
        ensures j in targets <==>
                && j < |Model()| && j != selfIdx && Model()[j].state != DEAD
                && |LivePeersBefore(Model(), selfIdx, j)| < 3
      {
        FirstThreePinged(Model(), selfIdx, j);
      }
    }

    method FirstTargets() returns (targets: seq<nat>)
      requires Valid()
      ensures targets == Targets(Model(), selfIdx, 0, GOSSIP_FANOUT)
    {
      targets := [];
      ghost var t := Model();
      var i := 0;
      while i < count && |targets| < GOSSIP_FANOUT
        invariant i <= count && |targets| <= GOSSIP_FANOUT
        invariant targets + Targets(t, selfIdx, i, GOSSIP_FANOUT - |targets|) == Targets(t, selfIdx, 0, GOSSIP_FANOUT)
      {
        if i != selfIdx && nodes[i].state != DEAD {
          ghost var rest := Targets(t, selfIdx, i + 1, GOSSIP_FANOUT - |targets| - 1);
          assert targets + ([i] + rest) == (targets + [i]) + rest;
          targets := targets + [i];
        }
        i := i + 1;
      }
    }

    /** `cluster_get_owner`. */
    method GetOwner(page: u32) returns (r: Option<Member>)
      requires Valid()
      ensures r == Owner(Model(), page)
      ensures r.Some? <==> exists i :: && 0 <= i < |Model()| && Model()[i].state != DEAD
                                       && Model()[i].rangeStart <= page < Model()[i].rangeEnd
    {
      r := FirstOwner(page);
      OwnerExactly(Model(), page);
    }

    method FirstOwner(page: u32) returns (r: Option<Member>)
      requires Valid()
      ensures r == Owner(Model(), page)
    {
      ghost var t := Model();
      for i := 0 to count
        invariant forall j :: 0 <= j < i ==> !Owns(t[j], page)
      {
        if nodes[i].state != DEAD && page >= nodes[i].rangeStart && page < nodes[i].rangeEnd {
          FirstOwns(t, page, i);
          return Some(nodes[i]);
        }
      }
      return None;
    }
  }
}
