/**
 Contexts whose arrays are made while others are already in use. Pages are handed out in
 order and never taken back, so an array made later is, from the start, a map of its own.
 */
module ArrayGrowth {
  import opened ArrayIndex
  import opened ArrayStore
  import opened PagerModel

  /** `Array.__init__`, and the operations on arrays made so far. */
  datatype ContextOp = Make(shape: Shape, elemSize: nat) | Item(op: ArrayOp)

  /** The arrays of a context, all below page `next`. */
  datatype Space = Space(arrays: seq<Array>, next: nat)

  ghost predicate SpaceOk(sp: Space, pages: nat) {
    Layout(sp.arrays, sp.next) && sp.next <= pages
  }

  /** A new array takes the next pages, if there are enough. */
  ghost function Grow(sp: Space, pages: nat, op: ContextOp): Space
    requires op.Make? ==> Array(sp.next, op.shape, op.elemSize).Sized()
  {
    if op.Make? then
      var a := Array(sp.next, op.shape, op.elemSize);
      if sp.next + a.NumPages() <= pages then Space(sp.arrays + [a], sp.next + a.NumPages()) else sp
    else sp
  }

  /** Arrays are made of supported types, and used once made. */
  ghost predicate OpsFit(sp: Space, pages: nat, ops: seq<ContextOp>)
    decreases |ops|
  {
    ops != [] ==>
      && (ops[0].Make? ==> Array(sp.next, ops[0].shape, ops[0].elemSize).Sized())
      && (ops[0].Item? ==> ItemOk(sp.arrays, ops[0].op))
      && OpsFit(Grow(sp, pages, ops[0]), pages, ops[1..])
  }

  /** All arrays there are at the end. */
  ghost function GrowAll(sp: Space, pages: nat, ops: seq<ContextOp>): Space
    requires OpsFit(sp, pages, ops)
    decreases |ops|
  {
    if ops == [] then sp else GrowAll(Grow(sp, pages, ops[0]), pages, ops[1..])
  }

  function Items(ops: seq<ContextOp>): seq<ArrayOp> {
    if ops == [] then [] else (if ops[0].Item? then [ops[0].op] else []) + Items(ops[1..])
  }

  lemma GrowKeeps(sp: Space, pages: nat, op: ContextOp)
    requires SpaceOk(sp, pages) && (op.Make? ==> Array(sp.next, op.shape, op.elemSize).Sized())
    ensures SpaceOk(Grow(sp, pages, op), pages) && sp.arrays <= Grow(sp, pages, op).arrays
  {
    if op.Make? { NumPagesCeiling(Array(sp.next, op.shape, op.elemSize)); }
  }

  lemma {:induction false} GrowAllKeeps(sp: Space, pages: nat, ops: seq<ContextOp>)
    requires SpaceOk(sp, pages) && OpsFit(sp, pages, ops)
    ensures SpaceOk(GrowAll(sp, pages, ops), pages) && sp.arrays <= GrowAll(sp, pages, ops).arrays
    ensures Layout(GrowAll(sp, pages, ops).arrays, pages)
    ensures forall i :: 0 <= i < |Items(ops)| ==> ItemOk(GrowAll(sp, pages, ops).arrays, Items(ops)[i])
    decreases |ops|
  {
    if ops == [] {
    } else {
      GrowKeeps(sp, pages, ops[0]);
      GrowAllKeeps(Grow(sp, pages, ops[0]), pages, ops[1..]);
    }
  }

  /** The run as it happens, each operation among the arrays made by then. */
  ghost function ContextRun(s: Pager, sp: Space, ops: seq<ContextOp>): (r: (Pager, seq<Answer>))
    requires Inv(s, {}) && s.socket && SpaceOk(sp, |s.pages|) && OpsFit(sp, |s.pages|, ops)
    ensures Inv(r.0, {}) && SameConfig(s, r.0) && |r.1| == |Items(ops)|
    decreases |ops|
  {
    if ops == [] then (s, [])
    else
      GrowKeeps(sp, |s.pages|, ops[0]);
      var sp' := Grow(sp, |s.pages|, ops[0]);
      if ops[0].Make? then ContextRun(s, sp', ops[1..])
      else
        LayoutGrows(sp.arrays, sp.next, |s.pages|);
        ItemRefines(s, sp.arrays, ops[0].op);
        var (t, out) := ItemStep(s, sp.arrays, ops[0].op);
        var (u, outs) := ContextRun(t, sp', ops[1..]);
        (u, [out] + outs)
  }

  /** An operation does the same among more arrays. */
  lemma StepAmongMore(s: Pager, arrays: seq<Array>, more: seq<Array>, op: ArrayOp)
    requires Inv(s, {}) && arrays <= more && Layout(arrays, |s.pages|) && Layout(more, |s.pages|) && ItemOk(arrays, op)
    ensures ItemOk(more, op) && ItemStep(s, more, op) == ItemStep(s, arrays, op)
  {
  }

  /** So the run is a run among all the arrays there will be. */
  lemma {:induction false} RunAmongAll(s: Pager, sp: Space, ops: seq<ContextOp>, all: seq<Array>)
    requires Inv(s, {}) && s.socket && SpaceOk(sp, |s.pages|) && OpsFit(sp, |s.pages|, ops)
    requires all == GrowAll(sp, |s.pages|, ops).arrays
    ensures Layout(all, |s.pages|) && forall i :: 0 <= i < |Items(ops)| ==> ItemOk(all, Items(ops)[i])
    ensures ContextRun(s, sp, ops) == ItemRun(s, all, Items(ops))
    decreases |ops|
  {
    GrowAllKeeps(sp, |s.pages|, ops);
    if ops == [] {
    } else {
      GrowKeeps(sp, |s.pages|, ops[0]);
      var sp' := Grow(sp, |s.pages|, ops[0]);
      if ops[0].Make? {
        assert Items(ops) == Items(ops[1..]);
        RunAmongAll(s, sp', ops[1..], all);
      } else {
        LayoutGrows(sp.arrays, sp.next, |s.pages|);
        StepAmongMore(s, sp.arrays, all, ops[0].op);
        ItemRefines(s, sp.arrays, ops[0].op);
        RunAmongAll(ItemStep(s, sp.arrays, ops[0].op).0, sp', ops[1..], all);
        assert Items(ops)[0] == ops[0].op && Items(ops)[1..] == Items(ops[1..]);
      }
    }
  }

  /**
   Arrays made on the way: any interleaving of array creation with gets, sets and prefetches
   is a run of independent maps, one for every array there is in the end. What an array
   holds when it is made is what the client saw there at the start of the run.
   */
  lemma ContextIsMaps(s: Pager, sp: Space, ops: seq<ContextOp>)
    requires Inv(s, {}) && s.socket && SpaceOk(sp, |s.pages|) && OpsFit(sp, |s.pages|, ops)
    ensures var all := GrowAll(sp, |s.pages|, ops).arrays;
            var (t, outs) := ContextRun(s, sp, ops);
            && sp.arrays <= all && Layout(all, |s.pages|)
            && (forall i :: 0 <= i < |Items(ops)| ==> ItemOk(all, Items(ops)[i]))
            && MapRun(AllContents(View(s), all), all, Items(ops), outs, AllContents(View(t), all))
  {
    GrowAllKeeps(sp, |s.pages|, ops);
    RunAmongAll(s, sp, ops, GrowAll(sp, |s.pages|, ops).arrays);
    ArraysAreMaps(s, GrowAll(sp, |s.pages|, ops).arrays, Items(ops));
  }
}
