/**
 A node's table in a run of the cluster is a run of its own events, so everything proved of
 every event sequence in `FailureDetector` holds of every node in every run of the cluster.
 */
module ClusterTables {
  import opened Base
  import opened GossipCodec
  import opened Membership
  import opened ClusterSystem

  /** What one step of the cluster does to the table of node id. */
  ghost function StepEvents(cfg: Config, s: System, a: Action, id: NodeId): seq<Event> {
    if id !in s.nodes || id !in cfg then []
    else if a.Deliver? && a.id == id && a.d in s.net && Parse(a.d.bytes).Some? then
      Mentions(Parse(a.d.bytes).value, a.d.addr, a.d.port, a.clock)
    else if a.Heartbeat? && a.id == id then [Beat(a.now)]
    else []
  }

  /** All events at node id in a run, in order. */
  ghost function EventsOf(cfg: Config, acts: seq<Action>, id: NodeId): seq<Event> {
    if acts == [] then []
    else
      var k := |acts| - 1;
      EventsOf(cfg, acts[..k], id) + StepEvents(cfg, Behave(cfg, acts[..k]), acts[k], id)
  }

  /** The time at which node id was started. */
  ghost function StartTime(cfg: Config, acts: seq<Action>, id: NodeId): u64 {
    if acts == [] then 0
    else
      var k := |acts| - 1;
      if id in Behave(cfg, acts[..k]).nodes then StartTime(cfg, acts[..k], id)
      else if acts[k].Start? then acts[k].now
      else 0
  }

  lemma {:induction false} RunAppend(t: Table, self: nat, timeout: u32, evs: seq<Event>, more: seq<Event>)
    ensures Run(t, self, timeout, evs + more) == Run(Run(t, self, timeout, evs), self, timeout, more)
    decreases |more|
  {
    if more == [] {
      assert evs + more == evs;
    } else {
      var k := |more| - 1;
      RunAppend(t, self, timeout, evs, more[..k]);
      var all := evs + more;
      assert all[..|all| - 1] == evs + more[..k] && all[|all| - 1] == more[k];
    }
  }

  lemma StepIsEvents(cfg: Config, s: System, a: Action, id: NodeId)
    requires id in s.nodes && id in cfg
    ensures id in Next(cfg, s, a).nodes
    ensures Next(cfg, s, a).nodes[id].table == Run(s.nodes[id].table, 0, cfg[id].timeout, StepEvents(cfg, s, a, id))
  {
    match a
    case Heartbeat(_, now) => assert [Beat(now)][..0] == [];
    case GetPage(_, _, _) => RequestKeepsTables(cfg, s, a, id);
    case PutPage(_, _, _, _) => RequestKeepsTables(cfg, s, a, id);
    case _ =>
  }

  /** A table is the node's own entry, as configured, followed by all it has heard and ticked since. */
  lemma {:induction false} TableIsRun(cfg: Config, acts: seq<Action>, id: NodeId)
    requires DistinctEndpoints(cfg) && id in Behave(cfg, acts).nodes
    ensures id in cfg
    ensures Behave(cfg, acts).nodes[id].table
         == Run([SelfEntry(cfg[id], id, StartTime(cfg, acts, id))], 0, cfg[id].timeout, EventsOf(cfg, acts, id))
  {
    BehaveOk(cfg, acts);
    var k := |acts| - 1;
    var s := Behave(cfg, acts[..k]);
    if id in s.nodes {
      TableIsRun(cfg, acts[..k], id);
      TableGrows(cfg, acts, id, [SelfEntry(cfg[id], id, StartTime(cfg, acts, id))]);
    } else {
      JustStarted(cfg, s, acts[k], id);
      NoEventsYet(cfg, acts, id, k);
      assert acts[..k + 1] == acts;
    }
  }

  lemma JustStarted(cfg: Config, s: System, a: Action, id: NodeId)
    requires id !in s.nodes && id in Next(cfg, s, a).nodes
    ensures id in cfg && a.Start? && a.id == id
    ensures Next(cfg, s, a).nodes[id].table == [SelfEntry(cfg[id], id, a.now)]
  {
  }

  lemma TableGrows(cfg: Config, acts: seq<Action>, id: NodeId, t: Table)
    requires acts != [] && id in cfg
    requires var s := Behave(cfg, acts[..|acts| - 1]);
             id in s.nodes && s.nodes[id].table == Run(t, 0, cfg[id].timeout, EventsOf(cfg, acts[..|acts| - 1], id))
    ensures id in Behave(cfg, acts).nodes
    ensures Behave(cfg, acts).nodes[id].table == Run(t, 0, cfg[id].timeout, EventsOf(cfg, acts, id))
  {
    var k := |acts| - 1;
    var s := Behave(cfg, acts[..k]);
    StepIsEvents(cfg, s, acts[k], id);
    RunAppend(t, 0, cfg[id].timeout, EventsOf(cfg, acts[..k], id), StepEvents(cfg, s, acts[k], id));
  }

  lemma {:induction false} NoEventsYet(cfg: Config, acts: seq<Action>, id: NodeId, k: nat)
    requires k < |acts| && id !in Behave(cfg, acts[..k]).nodes
    ensures EventsOf(cfg, acts[..k + 1], id) == []
    decreases k
  {
    assert acts[..k + 1][..k] == acts[..k];
    if k == 0 {
    } else {
      assert acts[..k][..k - 1] == acts[..k - 1];
      StillAbsent(cfg, Behave(cfg, acts[..k - 1]), acts[k - 1], id);
      NoEventsYet(cfg, acts, id, k - 1);
    }
  }

  lemma StillAbsent(cfg: Config, s: System, a: Action, id: NodeId)
    requires id !in Next(cfg, s, a).nodes
    ensures id !in s.nodes
  {
  }
}
