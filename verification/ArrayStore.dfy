/**
 Arrays over the page cache behave as independent maps from index tuples to values,
 through every eviction, refetch and network failure.
 */
module ArrayStore {
  import opened ArrayIndex
  import opened Base
  import opened PagerModel
  import opened PagerSteps
  import opened PagerRuns

  datatype ArrayOp =
    | GetItem(a: nat, idx: seq<int>, net: Net)
    | SetItem(a: nat, idx: seq<int>, value: Bytes, net: Net)
    | Hint(start: nat, count: nat, batchOk: bool)

  datatype Answer = Value(bytes: Bytes) | Written | BadIndex | NoAccess | Hinted

  /** Arrays of one context: supported element types, pages inside the context, no page shared. */
  ghost predicate Layout(arrays: seq<Array>, numVirtual: nat) {
    && (forall i :: 0 <= i < |arrays| ==> arrays[i].Sized() && arrays[i].base + arrays[i].NumPages() <= numVirtual)
    && (forall i, j :: 0 <= i < j < |arrays| ==> Separate(arrays[i], arrays[j]))
  }

  lemma LayoutGrows(arrays: seq<Array>, n: nat, m: nat)
    requires Layout(arrays, n) && n <= m
    ensures Layout(arrays, m)
  {
  }

  predicate Separate(a: Array, b: Array) {
    a.base + a.NumPages() <= b.base || b.base + b.NumPages() <= a.base
  }

  ghost predicate ItemOk(arrays: seq<Array>, op: ArrayOp) {
    match op
    case GetItem(a, _, _) => a < |arrays|
    case SetItem(a, _, value, _) => a < |arrays| && |value| == arrays[a].elemSize
    case Hint(start, count, _) => start <= UINT32_MAX && count < 256
  }

  /** Where an index tuple of the client leads, if it is in range. */
  ghost function Locate(a: Array, idx: seq<int>): (r: Option<nat>)
    ensures r.Some? ==> r.value < Size(a.shape)
  {
    if |idx| == |a.shape| && InBounds(a.shape, Normals(a.shape, idx)) then
      FlatBelowSize(a.shape, Normals(a.shape, idx));
      Some(Flat(a.shape, Normals(a.shape, idx)))
    else None
  }

  /**
   Which element an index tuple names, in plain arithmetic: there is one exactly if the rank
   fits and no index is off by more than its axis is long; an index in range is taken as it
   is, and a negative one names the same element as the index one axis length higher.
   */
  lemma LocateExactly(a: Array, idx: seq<int>)
    ensures Locate(a, idx).Some? <==>
            |idx| == |a.shape| && forall i :: 0 <= i < |idx| ==> -a.shape[i] <= idx[i] < a.shape[i]
    ensures forall key :: Means(a.shape, idx, key) ==> Locate(a, idx) == Some(Flat(a.shape, key))
    ensures InBounds(a.shape, idx) ==> Locate(a, idx) == Some(Flat(a.shape, idx))
    ensures forall i :: 0 <= i < |idx| && |idx| == |a.shape| && -a.shape[i] <= idx[i] < 0 ==>
              Locate(a, idx) == Locate(a, idx[i := idx[i] + a.shape[i]])
  {
    if |idx| == |a.shape| {
      MeansExactly(a.shape, idx, Normals(a.shape, idx));
      forall key | Means(a.shape, idx, key)
        ensures key == Normals(a.shape, idx)
      {
        MeansExactly(a.shape, idx, key);
      }
      if InBounds(a.shape, idx) { assert Means(a.shape, idx, idx); }
      forall i | 0 <= i < |idx| && -a.shape[i] <= idx[i] < 0
        ensures Normals(a.shape, idx[i := idx[i] + a.shape[i]]) == Normals(a.shape, idx)
      {
      }
    }
  }

  /** The bytes of element `flat` in memory v. */
  function ElemAt(v: seq<Page>, a: Array, flat: nat): Bytes
    requires a.Sized() && a.base + a.NumPages() <= |v| && flat < Size(a.shape)
  {
    ElementInArray(a, flat);
    v[a.PageOf(flat)][a.OffsetOf(flat)..a.OffsetOf(flat) + a.elemSize]
  }

  /** The map an array stands for: in-range index tuples to element bytes. */
  ghost function Contents(v: seq<Page>, a: Array): imap<seq<int>, Bytes>
    requires a.Sized() && a.base + a.NumPages() <= |v|
  {
    imap idx | InBounds(a.shape, idx) :: EntryAt(v, a, idx)
  }

  /** The bytes of the element at an index tuple. */
  function EntryAt(v: seq<Page>, a: Array, idx: seq<int>): Bytes
    requires a.Sized() && a.base + a.NumPages() <= |v| && InBounds(a.shape, idx)
  {
    FlatBelowSize(a.shape, idx);
    ElemAt(v, a, Flat(a.shape, idx))
  }

  ghost function AllContents(v: seq<Page>, arrays: seq<Array>): seq<imap<seq<int>, Bytes>>
    requires Layout(arrays, |v|)
  {
    seq(|arrays|, i requires 0 <= i < |arrays| => Contents(v, arrays[i]))
  }

  // ---------- The operations, over the pager ----------

  /** `__getitem__`, `__setitem__` and `Context.prefetch`: an access, then the element's bytes. */
  ghost function ItemStep(s: Pager, arrays: seq<Array>, op: ArrayOp): (Pager, Answer)
    requires Inv(s, {}) && Layout(arrays, |s.pages|) && ItemOk(arrays, op)
  {
    match op
    case GetItem(a, idx, net) =>
      (match Locate(arrays[a], idx)
       case None => (s, BadIndex)
       case Some(flat) => Load(s, arrays[a], flat, net))
    case SetItem(a, idx, value, net) =>
      (match Locate(arrays[a], idx)
       case None => (s, BadIndex)
       case Some(flat) => Save(s, arrays[a], flat, value, net))
    case Hint(start, count, batchOk) => (Prefetch(s, start, count, batchOk), Hinted)
  }

  function Load(s: Pager, a: Array, flat: nat, net: Net): (Pager, Answer)
    requires Inv(s, {}) && a.Sized() && a.base + a.NumPages() <= |s.pages| && flat < Size(a.shape)
  {
    ElementInArray(a, flat);
    AccessKeeps(s, a.PageOf(flat), false, net);
    var (t, r) := Access(s, a.PageOf(flat), false, net);
    if r.None? then (t, NoAccess)
    else (t, Value(t.memory[r.value][a.OffsetOf(flat)..a.OffsetOf(flat) + a.elemSize]))
  }

  function Save(s: Pager, a: Array, flat: nat, value: Bytes, net: Net): (Pager, Answer)
    requires Inv(s, {}) && a.Sized() && a.base + a.NumPages() <= |s.pages| && flat < Size(a.shape)
    requires |value| == a.elemSize
  {
    ElementInArray(a, flat);
    AccessKeeps(s, a.PageOf(flat), true, net);
    var (t, r) := Access(s, a.PageOf(flat), true, net);
    if r.None? then (t, NoAccess)
    else (t.(memory := t.memory[r.value := Splice(t.memory[r.value], a.OffsetOf(flat), value)]), Written)
  }

  // ---------- The maps they implement ----------

  /** One operation on independent maps; only the network can make it fail on a good index. */
  ghost predicate MapStep(maps: seq<imap<seq<int>, Bytes>>, arrays: seq<Array>, op: ArrayOp, out: Answer,
                          maps': seq<imap<seq<int>, Bytes>>)
    requires ItemOk(arrays, op) && |maps| == |arrays|
  {
    match op
    case GetItem(a, idx, net) =>
      && maps' == maps
      && (if |idx| != |arrays[a].shape| || !InBounds(arrays[a].shape, Normals(arrays[a].shape, idx))
          then out == BadIndex
          else
            var key := Normals(arrays[a].shape, idx);
            || (key in maps[a] && out == Value(maps[a][key]))
            || (out == NoAccess && (net.put.PutFailed? || net.get.GetFailed?)))
    case SetItem(a, idx, value, net) =>
      if |idx| != |arrays[a].shape| || !InBounds(arrays[a].shape, Normals(arrays[a].shape, idx))
      then out == BadIndex && maps' == maps
      else
        var key := Normals(arrays[a].shape, idx);
        || (out == Written && maps' == maps[a := maps[a][key := value]])
        || (out == NoAccess && maps' == maps && (net.put.PutFailed? || net.get.GetFailed?))
    case Hint(_, _, _) => out == Hinted && maps' == maps
  }

  lemma LoadKeeps(s: Pager, a: Array, flat: nat, net: Net)
    requires Inv(s, {}) && s.socket && a.Sized() && a.base + a.NumPages() <= |s.pages| && flat < Size(a.shape)
    ensures var (t, out) := Load(s, a, flat, net);
            && Inv(t, {}) && SameConfig(s, t) && View(t) == View(s)
            && (out == Value(ElemAt(View(s), a, flat))
                || (out == NoAccess && (net.put.PutFailed? || net.get.GetFailed?)))
  {
    ElementInArray(a, flat);
    AccessKeeps(s, a.PageOf(flat), false, net);
    SilentView(s, Load(s, a, flat, net).0);
  }

  lemma SaveKeeps(s: Pager, a: Array, flat: nat, value: Bytes, net: Net)
    requires Inv(s, {}) && s.socket && a.Sized() && a.base + a.NumPages() <= |s.pages| && flat < Size(a.shape)
    requires |value| == a.elemSize
    ensures var (t, out) := Save(s, a, flat, value, net);
            && Inv(t, {}) && SameConfig(s, t)
            && a.PageOf(flat) < |s.pages| && a.OffsetOf(flat) + a.elemSize <= PAGE_SIZE
            && (|| (out == Written
                    && View(t) == View(s)[a.PageOf(flat) := Splice(View(s)[a.PageOf(flat)], a.OffsetOf(flat), value)])
                || (out == NoAccess && View(t) == View(s) && (net.put.PutFailed? || net.get.GetFailed?)))
  {
    ElementInArray(a, flat);
    var p := a.PageOf(flat);
    AccessKeeps(s, p, true, net);
    var (u, r) := Access(s, p, true, net);
    SilentView(s, u);
    if r.Some? {
      assert u.memory[r.value] == View(s)[p];
      StoreKeeps(u, p, Splice(u.memory[r.value], a.OffsetOf(flat), value));
    }
  }

  /** A write to one element changes that element of its map and nothing else anywhere. */
  lemma SpliceContents(v: seq<Page>, arrays: seq<Array>, k: nat, key: seq<int>, value: Bytes)
    requires Layout(arrays, |v|) && k < |arrays| && InBounds(arrays[k].shape, key)
    requires |value| == arrays[k].elemSize
    ensures var a, flat := arrays[k], Flat(arrays[k].shape, key);
            && 0 <= flat < Size(a.shape)
            && a.PageOf(flat) < |v| && a.OffsetOf(flat) + a.elemSize <= PAGE_SIZE
            && var w := v[a.PageOf(flat) := Splice(v[a.PageOf(flat)], a.OffsetOf(flat), value)];
               Layout(arrays, |w|) &&
               AllContents(w, arrays) == AllContents(v, arrays)[k := Contents(v, a)[key := value]]
  {
    var a, flat := arrays[k], Flat(arrays[k].shape, key);
    FlatBelowSize(a.shape, key);
    ElementInArray(a, flat);
    forall i | 0 <= i < |arrays|
      ensures var w := v[a.PageOf(flat) := Splice(v[a.PageOf(flat)], a.OffsetOf(flat), value)];
              Contents(w, arrays[i]) == if i == k then Contents(v, a)[key := value] else Contents(v, arrays[i])
    {
      SpliceOne(v, a, key, value, arrays[i], i == k);
    }
  }

  lemma SpliceOne(v: seq<Page>, a: Array, key: seq<int>, value: Bytes, b: Array, same: bool)
    requires a.Sized() && a.base + a.NumPages() <= |v| && InBounds(a.shape, key) && |value| == a.elemSize
    requires b.Sized() && b.base + b.NumPages() <= |v| && (if same then a == b else Separate(a, b))
    ensures var flat := Flat(a.shape, key);
            && 0 <= flat < Size(a.shape)
            && a.PageOf(flat) < |v| && a.OffsetOf(flat) + a.elemSize <= PAGE_SIZE
            && var w := v[a.PageOf(flat) := Splice(v[a.PageOf(flat)], a.OffsetOf(flat), value)];
               Contents(w, b) == if same then Contents(v, a)[key := value] else Contents(v, b)
  {
    FlatBelowSize(a.shape, key);
    var flat := Flat(a.shape, key);
    ElementInArray(a, flat);
    var w := v[a.PageOf(flat) := Splice(v[a.PageOf(flat)], a.OffsetOf(flat), value)];
    forall idx | InBounds(b.shape, idx)
      ensures EntryAt(w, b, idx) == if same && idx == key then value else EntryAt(v, b, idx)
    {
      SpliceKey(v, a, key, value, b, same, idx);
    }
    ContentsUpdated(v, w, b, key, value, same);
  }

  /** Maps that agree entry by entry, but for one. */
  lemma ContentsUpdated(v: seq<Page>, w: seq<Page>, b: Array, key: seq<int>, value: Bytes, same: bool)
    requires b.Sized() && b.base + b.NumPages() <= |v| == |w| && (same ==> InBounds(b.shape, key))
    requires forall idx :: InBounds(b.shape, idx) ==>
               EntryAt(w, b, idx) == if same && idx == key then value else EntryAt(v, b, idx)
    ensures Contents(w, b) == if same then Contents(v, b)[key := value] else Contents(v, b)
  {
  }

  lemma SpliceKey(v: seq<Page>, a: Array, key: seq<int>, value: Bytes, b: Array, same: bool, idx: seq<int>)
    requires a.Sized() && a.base + a.NumPages() <= |v| && InBounds(a.shape, key) && |value| == a.elemSize
    requires b.Sized() && b.base + b.NumPages() <= |v| && (if same then a == b else Separate(a, b))
    requires InBounds(b.shape, idx)
    ensures var flat, other := Flat(a.shape, key), Flat(b.shape, idx);
            && 0 <= flat < Size(a.shape) && 0 <= other < Size(b.shape)
            && a.PageOf(flat) < |v| && a.OffsetOf(flat) + a.elemSize <= PAGE_SIZE
            && var w := v[a.PageOf(flat) := Splice(v[a.PageOf(flat)], a.OffsetOf(flat), value)];
               EntryAt(w, b, idx) == if same && idx == key then value else EntryAt(v, b, idx)
  {
    FlatBelowSize(a.shape, key);
    FlatBelowSize(b.shape, idx);
    SpliceElement(v, a, Flat(a.shape, key), value, b, Flat(b.shape, idx), same);
    if same && idx != key { FlatInjective(a.shape, idx, key); }
  }

  lemma FlatInjective(shape: Shape, i: seq<int>, j: seq<int>)
    requires InBounds(shape, i) && InBounds(shape, j) && i != j
    ensures Flat(shape, i) != Flat(shape, j)
  {
    UnravelFlat(shape, i);
    UnravelFlat(shape, j);
  }

  lemma SpliceElement(v: seq<Page>, a: Array, flat: nat, value: Bytes, b: Array, other: nat, same: bool)
    requires a.Sized() && a.base + a.NumPages() <= |v| && flat < Size(a.shape) && |value| == a.elemSize
    requires b.Sized() && b.base + b.NumPages() <= |v| && other < Size(b.shape)
    requires if same then a == b else Separate(a, b)
    ensures a.PageOf(flat) < |v| && a.OffsetOf(flat) + a.elemSize <= PAGE_SIZE
    ensures var w := v[a.PageOf(flat) := Splice(v[a.PageOf(flat)], a.OffsetOf(flat), value)];
            ElemAt(w, b, other) == if same && other == flat then value else ElemAt(v, b, other)
  {
    ElementInArray(a, flat);
    ElementInArray(b, other);
    var p, q := a.PageOf(flat), b.PageOf(other);
    if p == q {
      assert same;
      if other != flat { ElementsApart(a, flat, other); }
      SpliceSlice(v[p], a.OffsetOf(flat), value, a.OffsetOf(other));
    }
  }

  /** A slice of a spliced page: the new bytes at their place, the old ones beside them. */
  lemma SpliceSlice(page: Page, offset: nat, bytes: Bytes, x: nat)
    requires offset + |bytes| <= PAGE_SIZE && x + |bytes| <= PAGE_SIZE
    ensures x == offset ==> Splice(page, offset, bytes)[x..x + |bytes|] == bytes
    ensures x + |bytes| <= offset || offset + |bytes| <= x ==>
              Splice(page, offset, bytes)[x..x + |bytes|] == page[x..x + |bytes|]
  {
  }

  /** One operation over the cache is one operation on the maps. */
  lemma ItemRefines(s: Pager, arrays: seq<Array>, op: ArrayOp)
    requires Inv(s, {}) && s.socket && Layout(arrays, |s.pages|) && ItemOk(arrays, op)
    ensures var (t, out) := ItemStep(s, arrays, op);
            && Inv(t, {}) && SameConfig(s, t)
            && MapStep(AllContents(View(s), arrays), arrays, op, out, AllContents(View(t), arrays))
  {
    match op
    case GetItem(a, idx, net) =>
      if Locate(arrays[a], idx).Some? {
        LoadKeeps(s, arrays[a], Locate(arrays[a], idx).value, net);
      }
    case SetItem(a, idx, value, net) =>
      if Locate(arrays[a], idx).Some? {
        SaveKeeps(s, arrays[a], Locate(arrays[a], idx).value, value, net);
        SpliceContents(View(s), arrays, a, Normals(arrays[a].shape, idx), value);
      }
    case Hint(start, count, batchOk) =>
      PrefetchKeeps(s, start, count, batchOk);
      SilentView(s, Prefetch(s, start, count, batchOk));
  }

  ghost function ItemRun(s: Pager, arrays: seq<Array>, ops: seq<ArrayOp>): (r: (Pager, seq<Answer>))
    requires Inv(s, {}) && s.socket && Layout(arrays, |s.pages|)
    requires forall i :: 0 <= i < |ops| ==> ItemOk(arrays, ops[i])
    ensures Inv(r.0, {}) && SameConfig(s, r.0) && |r.1| == |ops|
    decreases |ops|
  {
    if ops == [] then (s, [])
    else
      ItemRefines(s, arrays, ops[0]);
      var (t, out) := ItemStep(s, arrays, ops[0]);
      var (u, outs) := ItemRun(t, arrays, ops[1..]);
      (u, [out] + outs)
  }

  ghost predicate MapRun(maps: seq<imap<seq<int>, Bytes>>, arrays: seq<Array>, ops: seq<ArrayOp>, outs: seq<Answer>,
                         maps': seq<imap<seq<int>, Bytes>>)
    requires |maps| == |arrays| && |outs| == |ops|
    requires forall i :: 0 <= i < |ops| ==> ItemOk(arrays, ops[i])
    decreases |ops|
  {
    if ops == [] then maps' == maps
    else exists mid :: && |mid| == |arrays|
                       && MapStep(maps, arrays, ops[0], outs[0], mid)
                       && MapRun(mid, arrays, ops[1..], outs[1..], maps')
  }

  /**
   Array over cache is a map: any interleaving of gets, sets and prefetches on several
   arrays of one context is a run of independent maps.
   */
  lemma {:induction false} ArraysAreMaps(s: Pager, arrays: seq<Array>, ops: seq<ArrayOp>)
    requires Inv(s, {}) && s.socket && Layout(arrays, |s.pages|)
    requires forall i :: 0 <= i < |ops| ==> ItemOk(arrays, ops[i])
    ensures var (t, outs) := ItemRun(s, arrays, ops);
            MapRun(AllContents(View(s), arrays), arrays, ops, outs, AllContents(View(t), arrays))
    decreases |ops|
  {
    if ops == [] {
    } else {
      ItemRefines(s, arrays, ops[0]);
      var (t, out) := ItemStep(s, arrays, ops[0]);
      ArraysAreMaps(t, arrays, ops[1..]);
      var (u, outs) := ItemRun(t, arrays, ops[1..]);
      assert ([out] + outs)[1..] == outs;
    }
  }
}
