/**
 Merging is order independent: whatever order the same entries arrive in, the table ends
 with the same ids and, for each, the highest incarnation and its range, alive exactly if
 some entry at that incarnation said so.
 */
module MergeOrder {
  import opened Base
  import opened GossipCodec
  import opened Membership
  import opened FailureDetector

  /** A list of entries merged one after the other, each at its own time. */
  function MergeAll(t: Table, ms: seq<Member>, times: seq<u64>): Table
    requires |times| == |ms|
  {
    if ms == [] then t
    else Merge(MergeAll(t, ms[..|ms| - 1], times[..|ms| - 1]), ms[|ms| - 1], times[|ms| - 1])
  }

  /** Everything said about `id`: by the table before, and by the entries merged into it. */
  function Said(t: Table, ms: seq<Member>, id: NodeId): set<Member> {
    (set e | e in t && e.id == id) + (set m | m in ms && m.id == id)
  }

  function Ids(es: seq<Member>): set<NodeId> {
    set e | e in es :: e.id
  }

  predicate SameData(e: Member, c: Member) {
    && e.id == c.id && e.addr == c.addr && e.clientPort == c.clientPort && e.clusterPort == c.clusterPort
    && e.rangeStart == c.rangeStart && e.rangeEnd == c.rangeEnd && e.incarnation == c.incarnation
  }

  /** Entry e is a right summary of what was said: order plays no part in this. */
  ghost predicate Summarizes(e: Member, said: set<Member>) {
    && (forall c :: c in said ==> c.incarnation <= e.incarnation)
    && (exists c :: c in said && SameData(e, c))
    && (e.state == ALIVE <==> exists c :: c in said && c.incarnation == e.incarnation && c.state == ALIVE)
    && (exists c :: c in said && c.incarnation == e.incarnation && c.state == e.state)
  }

  /** Table u holds a right summary for each id spoken of, and no other id. */
  ghost predicate Settled(t: Table, ms: seq<Member>, u: Table) {
    && Ids(u) == Ids(t) + Ids(ms)
    && forall e :: e in u ==> Summarizes(e, Said(t, ms, e.id))
  }

  lemma SummaryOfOne(e: Member, c: Member, said: set<Member>)
    requires SameData(e, c) && e.state == c.state && said == {c}
    ensures Summarizes(e, said)
  {
    assert c in said;
  }

  lemma SummaryRefreshed(e: Member, said: set<Member>, m: Member, now: u64)
    requires Summarizes(e, said) && m.id == e.id
    ensures Summarizes(Refresh(e, m, now), said + {m})
  {
    var f, all := Refresh(e, m, now), said + {m};
    assert m in all;
    var d :| d in said && SameData(e, d);
    var s :| s in said && s.incarnation == e.incarnation && s.state == e.state;
    assert d in all && s in all;
    if m.incarnation > e.incarnation {
      assert SameData(f, m);
      assert forall c :: c in said ==> c.incarnation < m.incarnation;
    } else {
      assert SameData(f, d);
      if e.state == ALIVE && m.incarnation == e.incarnation {
        assert s.incarnation == f.incarnation && s.state == ALIVE;
      }
    }
  }

  /** One merge keeps the table settled, as long as it has room. */
  lemma MergeSettles(t: Table, ms: seq<Member>, u: Table, m: Member, now: u64)
    requires Distinct(u) && Settled(t, ms, u)
    requires m.id in Ids(u) || |u| < CLUSTER_MAX_NODES
    ensures Settled(t, ms + [m], Merge(u, m, now))
  {
    var v := Merge(u, m, now);
    var i := Find(u, m.id);
    IdsSnoc(ms, m);
    IdsMerge(u, m, now);
    forall j | 0 <= j < |v|
      ensures Summarizes(v[j], Said(t, ms + [m], v[j].id))
    {
      SaidSnoc(t, ms, m, v[j].id);
      if j == i {
        assert u[i] in u;
        SummaryRefreshed(u[i], Said(t, ms, m.id), m, now);
      } else if j == |u| {
        NothingSaid(t, ms, u, m.id);
        SummaryOfOne(v[j], m, {m});
      } else {
        assert u[j] in u && u[j].id != m.id;
      }
    }
  }

  lemma IdsMerge(u: Table, m: Member, now: u64)
    requires m.id in Ids(u) || |u| < CLUSTER_MAX_NODES
    ensures Ids(Merge(u, m, now)) == Ids(u) + {m.id}
  {
    var v, i := Merge(u, m, now), Find(u, m.id);
    forall id | id in Ids(u) + {m.id}
      ensures id in Ids(v)
    {
      if id == m.id {
        assert i >= 0 ==> v[i] in v;
        assert i < 0 ==> v[|u|] in v;
      } else {
        var j :| 0 <= j < |u| && u[j].id == id;
        assert v[j] in v;
      }
    }
    forall id | id in Ids(v)
      ensures id in Ids(u) + {m.id}
    {
      var j :| 0 <= j < |v| && v[j].id == id;
      if j < |u| { assert u[j] in u; }
    }
  }

  lemma IdsSnoc(ms: seq<Member>, m: Member)
    ensures Ids(ms + [m]) == Ids(ms) + {m.id}
  {
    forall id | id in Ids(ms) + {m.id}
      ensures id in Ids(ms + [m])
    {
      if id == m.id {
        assert (ms + [m])[|ms|] == m;
      } else {
        var e :| e in ms && e.id == id;
        assert e in ms + [m];
      }
    }
  }

  lemma SaidSnoc(t: Table, ms: seq<Member>, m: Member, id: NodeId)
    ensures Said(t, ms + [m], id) == if m.id == id then Said(t, ms, id) + {m} else Said(t, ms, id)
  {
  }

  lemma NothingSaid(t: Table, ms: seq<Member>, u: Table, id: NodeId)
    requires Settled(t, ms, u) && Find(u, id) < 0
    ensures Said(t, ms, id) == {}
  {
    assert id !in Ids(u);
    assert forall c :: c in t ==> c.id in Ids(t);
    assert forall c :: c in ms ==> c.id in Ids(ms);
  }

  /** The table after merging any list, while its capacity suffices. */
  lemma {:induction false} MergeAllSettles(t: Table, ms: seq<Member>, times: seq<u64>)
    requires TableOk(t) && |times| == |ms| && |Ids(t) + Ids(ms)| <= CLUSTER_MAX_NODES
    ensures TableOk(MergeAll(t, ms, times)) && Settled(t, ms, MergeAll(t, ms, times))
  {
    if ms == [] {
      NothingMerged(t);
    } else {
      var k := |ms| - 1;
      var ms', m := ms[..k], ms[k];
      assert ms == ms' + [m];
      IdsSnoc(ms', m);
      SubsetSize(Ids(t) + Ids(ms'), Ids(t) + Ids(ms));
      MergeAllSettles(t, ms', times[..k]);
      OneMoreSettles(t, ms', MergeAll(t, ms', times[..k]), m, times[k]);
    }
  }

  lemma NothingMerged(t: Table)
    requires TableOk(t)
    ensures Settled(t, [], t)
  {
    forall e | e in t
      ensures Summarizes(e, Said(t, [], e.id))
    {
      assert Said(t, [], e.id) == {e} by {
        forall f | f in t && f.id == e.id ensures f == e { }
      }
      SummaryOfOne(e, e, {e});
    }
    assert Ids([]) == {};
  }

  lemma OneMoreSettles(t: Table, ms: seq<Member>, u: Table, m: Member, now: u64)
    requires TableOk(u) && Settled(t, ms, u) && |Ids(t) + Ids(ms + [m])| <= CLUSTER_MAX_NODES
    ensures TableOk(Merge(u, m, now)) && Settled(t, ms + [m], Merge(u, m, now))
  {
    MergeKeeps(u, m, now);
    IdsSize(u);
    IdsSnoc(ms, m);
    if m.id !in Ids(u) {
      assert Ids(t) + Ids(ms + [m]) == Ids(u) + {m.id};
    }
    MergeSettles(t, ms, u, m, now);
  }

  lemma SubsetSize<X>(a: set<X>, b: set<X>)
    requires a <= b
    ensures |a| <= |b|
  {
    assert b == a + (b - a);
  }

  lemma {:induction false} IdsSize(u: Table)
    requires Distinct(u)
    ensures |Ids(u)| == |u|
  {
    if u == [] {
      assert Ids(u) == {};
    } else {
      var v, e := u[..|u| - 1], u[|u| - 1];
      assert u == v + [e];
      IdsSize(v);
      IdsSnoc(v, e);
      assert e.id !in Ids(v);
    }
  }

  /**
   Merge order independence: two orders of the same entries, at any times, give tables with
   the same ids; equal ids agree on incarnation and on being alive, and on the range when
   range is a function of id and incarnation.
   */
  lemma OrderIndependent(t: Table, ms: seq<Member>, times: seq<u64>, ms': seq<Member>, times': seq<u64>)
    requires TableOk(t) && |times| == |ms| && |times'| == |ms'| && multiset(ms) == multiset(ms')
    requires |Ids(t) + Ids(ms)| <= CLUSTER_MAX_NODES
    ensures var u, v := MergeAll(t, ms, times), MergeAll(t, ms', times');
            && Ids(u) == Ids(v)
            && (forall e, f :: e in u && f in v && e.id == f.id ==>
                  && e.incarnation == f.incarnation
                  && (e.state == ALIVE <==> f.state == ALIVE)
                  && (RangeDetermined(t + ms) ==> e.rangeStart == f.rangeStart && e.rangeEnd == f.rangeEnd))
  {
    SameElements(ms, ms');
    assert Ids(ms) == Ids(ms');
    MergeAllSettles(t, ms, times);
    MergeAllSettles(t, ms', times');
    SettledSame(t, ms, ms', MergeAll(t, ms', times'));
    SettledAgree(t, ms, MergeAll(t, ms, times), MergeAll(t, ms', times'));
  }

  lemma SettledSame(t: Table, ms: seq<Member>, ms': seq<Member>, v: Table)
    requires Settled(t, ms', v) && forall m :: m in ms <==> m in ms'
    ensures Settled(t, ms, v)
  {
    assert Ids(ms) == Ids(ms');
    forall e | e in v
      ensures Summarizes(e, Said(t, ms, e.id))
    {
      assert Said(t, ms, e.id) == Said(t, ms', e.id);
    }
  }

  lemma SettledAgree(t: Table, ms: seq<Member>, u: Table, v: Table)
    requires Settled(t, ms, u) && Settled(t, ms, v)
    ensures Ids(u) == Ids(v)
    ensures forall e, f :: e in u && f in v && e.id == f.id ==>
              && e.incarnation == f.incarnation
              && (e.state == ALIVE <==> f.state == ALIVE)
              && (RangeDetermined(t + ms) ==> e.rangeStart == f.rangeStart && e.rangeEnd == f.rangeEnd)
  {
    forall e, f | e in u && f in v && e.id == f.id
      ensures e.incarnation == f.incarnation && (e.state == ALIVE <==> f.state == ALIVE)
      ensures RangeDetermined(t + ms) ==> e.rangeStart == f.rangeStart && e.rangeEnd == f.rangeEnd
    {
      SummariesAgree(t + ms, e, f, Said(t, ms, e.id));
    }
  }

  ghost predicate RangeDetermined(es: seq<Member>) {
    forall c, d :: c in es && d in es && c.id == d.id && c.incarnation == d.incarnation ==>
      c.rangeStart == d.rangeStart && c.rangeEnd == d.rangeEnd
  }

  lemma SummariesAgree(es: seq<Member>, e: Member, f: Member, said: set<Member>)
    requires Summarizes(e, said) && Summarizes(f, said) && forall c :: c in said ==> c in es
    ensures e.incarnation == f.incarnation && (e.state == ALIVE <==> f.state == ALIVE)
    ensures e.id == f.id && RangeDetermined(es) ==> e.rangeStart == f.rangeStart && e.rangeEnd == f.rangeEnd
  {
    var c :| c in said && SameData(e, c);
    var d :| d in said && SameData(f, d);
  }

  lemma SameElements(ms: seq<Member>, ms': seq<Member>)
    requires multiset(ms) == multiset(ms')
    ensures forall m :: m in ms <==> m in ms'
  {
    forall m
      ensures m in ms <==> m in ms'
    {
      assert m in ms <==> m in multiset(ms);
      assert m in ms' <==> m in multiset(ms');
    }
  }

  // ---------- What does depend on the order ----------

  /** The first entry of a list for an id at an incarnation. */
  function FirstAt(es: seq<Member>, id: NodeId, inc: u32): (r: Option<Member>)
    ensures r.Some? ==> r.value in es && r.value.id == id && r.value.incarnation == inc
    ensures r.None? ==> forall c :: c in es && c.id == id ==> c.incarnation != inc
  {
    if es == [] then None
    else if es[0].id == id && es[0].incarnation == inc then Some(es[0])
    else FirstAt(es[1..], id, inc)
  }

  lemma {:induction false} FirstAtSnoc(es: seq<Member>, m: Member, id: NodeId, inc: u32)
    ensures FirstAt(es + [m], id, inc) ==
            if FirstAt(es, id, inc).None? && m.id == id && m.incarnation == inc then Some(m) else FirstAt(es, id, inc)
    decreases |es|
  {
    if es == [] {
      assert FirstAt([m][1..], id, inc) == None;
    } else {
      assert (es + [m])[1..] == es[1..] + [m];
      FirstAtSnoc(es[1..], m, id, inc);
    }
  }

  /** Entry e is the first entry of the list at its incarnation, unless a later one made it ALIVE. */
  ghost predicate FollowsFirst(e: Member, es: seq<Member>) {
    var c := FirstAt(es, e.id, e.incarnation);
    c.Some? && SameData(e, c.value) && (e.state == ALIVE || e.state == c.value.state)
  }

  ghost predicate AllFollowFirst(u: Table, es: seq<Member>) {
    forall e :: e in u ==> FollowsFirst(e, es)
  }

  lemma RefreshFollowsFirst(t: Table, ms: seq<Member>, e: Member, m: Member, now: u64)
    requires Summarizes(e, Said(t, ms, e.id)) && FollowsFirst(e, t + ms) && m.id == e.id
    ensures FollowsFirst(Refresh(e, m, now), t + ms + [m])
  {
    FirstAtSnoc(t + ms, m, e.id, Refresh(e, m, now).incarnation);
    assert forall c :: c in t + ms && c.id == e.id ==> c in Said(t, ms, e.id);
  }

  lemma MergeFollowsFirst(t: Table, ms: seq<Member>, u: Table, m: Member, now: u64)
    requires Distinct(u) && Settled(t, ms, u) && AllFollowFirst(u, t + ms)
    ensures AllFollowFirst(Merge(u, m, now), t + ms + [m])
  {
    var v := Merge(u, m, now);
    var i := Find(u, m.id);
    forall j | 0 <= j < |v|
      ensures FollowsFirst(v[j], t + ms + [m])
    {
      if j == i {
        assert u[i] in u;
        RefreshFollowsFirst(t, ms, u[i], m, now);
      } else if j == |u| {
        NothingSaid(t, ms, u, m.id);
        FirstAtSnoc(t + ms, m, m.id, m.incarnation);
        assert forall c :: c in t + ms && c.id == m.id ==> c in Said(t, ms, m.id);
      } else {
        assert u[j] in u;
        FirstAtSnoc(t + ms, m, u[j].id, u[j].incarnation);
      }
    }
  }

  lemma {:induction false} MergeAllFollowsFirst(t: Table, ms: seq<Member>, times: seq<u64>)
    requires TableOk(t) && |times| == |ms| && |Ids(t) + Ids(ms)| <= CLUSTER_MAX_NODES
    ensures AllFollowFirst(MergeAll(t, ms, times), t + ms)
  {
    if ms == [] {
      assert t + ms == t;
      TableFollowsItself(t);
    } else {
      var k := |ms| - 1;
      var ms', m := ms[..k], ms[k];
      assert ms == ms' + [m] && t + ms == t + ms' + [m];
      IdsSnoc(ms', m);
      SubsetSize(Ids(t) + Ids(ms'), Ids(t) + Ids(ms));
      MergeAllSettles(t, ms', times[..k]);
      MergeAllFollowsFirst(t, ms', times[..k]);
      MergeFollowsFirst(t, ms', MergeAll(t, ms', times[..k]), m, times[k]);
    }
  }

  lemma TableFollowsItself(t: Table)
    requires Distinct(t)
    ensures AllFollowFirst(t, t)
  {
    forall i | 0 <= i < |t|
      ensures FollowsFirst(t[i], t)
    {
      assert t[i] in t;
      var c := FirstAt(t, t[i].id, t[i].incarnation);
      if c.Some? {
        var j :| 0 <= j < |t| && t[j] == c.value;
      }
    }
  }

  predicate AliveAt(es: seq<Member>, id: NodeId, inc: u32) {
    exists c :: c in es && c.id == id && c.incarnation == inc && c.state == ALIVE
  }

  /**
   The first state wins: after merging any list, an entry is ALIVE if some entry at its
   incarnation, which is the highest, said so. If none did, it has the state of the first
   entry at that incarnation, and in both cases that first entry's endpoints and range.
   */
  lemma FirstStateWins(t: Table, ms: seq<Member>, times: seq<u64>, e: Member)
    requires TableOk(t) && |times| == |ms| && |Ids(t) + Ids(ms)| <= CLUSTER_MAX_NODES && e in MergeAll(t, ms, times)
    ensures forall c :: c in t + ms && c.id == e.id ==> c.incarnation <= e.incarnation
    ensures var c := FirstAt(t + ms, e.id, e.incarnation);
            && c.Some? && SameData(e, c.value)
            && e.state == if AliveAt(t + ms, e.id, e.incarnation) then ALIVE else c.value.state
  {
    MergeAllSettles(t, ms, times);
    MergeAllFollowsFirst(t, ms, times);
    var said := Said(t, ms, e.id);
    assert Summarizes(e, said);
    assert forall c :: c in said <==> c in t + ms && c.id == e.id;
    if AliveAt(t + ms, e.id, e.incarnation) {
      var c :| c in t + ms && c.id == e.id && c.incarnation == e.incarnation && c.state == ALIVE;
      assert c in said;
    }
  }

  /**
   So two orders of the same entries agree on a state exactly if some entry at the highest
   incarnation is ALIVE or the first entries at it have the same state.
   */
  lemma OrdersAgreeExactly(t: Table, ms: seq<Member>, times: seq<u64>, ms': seq<Member>, times': seq<u64>, e: Member,
                           f: Member)
    requires TableOk(t) && |times| == |ms| && |times'| == |ms'| && multiset(ms) == multiset(ms')
    requires |Ids(t) + Ids(ms)| <= CLUSTER_MAX_NODES
    requires e in MergeAll(t, ms, times) && f in MergeAll(t, ms', times') && e.id == f.id
    ensures var c, d := FirstAt(t + ms, e.id, e.incarnation), FirstAt(t + ms', e.id, e.incarnation);
            && c.Some? && d.Some?
            && (e.state == f.state <==> AliveAt(t + ms, e.id, e.incarnation) || c.value.state == d.value.state)
  {
    SameElements(ms, ms');
    assert Ids(ms) == Ids(ms');
    OrderIndependent(t, ms, times, ms', times');
    FirstStateWins(t, ms, times, e);
    FirstStateWins(t, ms', times', f);
    AliveSame(t, ms, ms', e.id, e.incarnation);
    assert FirstAt(t + ms, e.id, e.incarnation).value in t + ms;
  }

  lemma AliveSame(t: Table, ms: seq<Member>, ms': seq<Member>, id: NodeId, inc: u32)
    requires forall m :: m in ms <==> m in ms'
    ensures AliveAt(t + ms, id, inc) <==> AliveAt(t + ms', id, inc)
  {
    assert forall c :: c in t + ms <==> c in t + ms';
  }
}
