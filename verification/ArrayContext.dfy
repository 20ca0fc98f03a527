/**
 The Python layer as it runs: a context that hands out page ranges, and arrays that read
 and write elements through the pager.
 */
module ArrayContext {
  import opened ArrayIndex
  import opened ArrayStore
  import opened Base
  import opened PagerModel
  import opened PagerRuns
  import PagerContext

  datatype Allocation = Reserved(page: nat) | Closed | OutOfPages(remaining: int)

  datatype Creation = Created(index: nat) | NotCreated(why: Allocation)

  /** The writeback or the fetch an access may need fails. */
  predicate Fails(net: Net) {
    net.put.PutFailed? || net.get.GetFailed?
  }

  class ArrayContext {
    const pager: PagerContext.Context
    const virtualPages: nat
    var open: bool
    var nextPage: nat
    /** Every array made so far, in order of creation. */
    var arrays: seq<Array>

    ghost function Repr(): set<object> {
      {this} + pager.Repr()
    }

    /** Arrays lie below `nextPage`, and no two share a page. */
    ghost predicate Valid()
      reads this, pager, pager.memory, pager.pageTable, pager.frameTable, pager.freeList
    {
      && this !in pager.Repr()
      && pager.Valid({})
      && virtualPages == pager.pageTable.Length
      && nextPage <= virtualPages
      && Layout(arrays, nextPage)
    }

    constructor (pager: PagerContext.Context)
      requires pager.Valid({})
      ensures Valid() && this.pager == pager && open && arrays == [] && nextPage == 0
    {
      this.pager := pager;
      virtualPages := pager.pageTable.Length;
      open := true;
      nextPage := 0;
      arrays := [];
    }

    /** `_alloc_pages`: the range handed out starts where the last one ended. */
    method AllocPages(count: nat) returns (r: Allocation)
      requires Valid()
      modifies this`nextPage
      ensures Valid()
      ensures r.Closed? <==> !open
      ensures r.OutOfPages? <==> open && old(nextPage) + count > virtualPages
      ensures r.OutOfPages? ==> r.remaining == virtualPages - old(nextPage)
      ensures r.Reserved? ==> r.page == old(nextPage) && nextPage == old(nextPage) + count
      ensures !r.Reserved? ==> nextPage == old(nextPage)
    {
      if !open {
        return Closed;
      }
      if nextPage + count > virtualPages {
        return OutOfPages(virtualPages - nextPage);
      }
      r := Reserved(nextPage);
      nextPage := nextPage + count;
      LayoutGrows(arrays, old(nextPage), nextPage);
    }

    /** `Array.__init__`: a new array overlaps no earlier one, and earlier ones stay where they are. */
    method NewArray(shape: Shape, elemSize: nat) returns (r: Creation)
      requires Valid() && Array(0, shape, elemSize).Sized()
      modifies this`nextPage, this`arrays
      ensures Valid()
      ensures r.Created? ==>
                && r.index == |old(arrays)|
                && arrays == old(arrays) + [Array(old(nextPage), shape, elemSize)]
      ensures r.NotCreated? ==> arrays == old(arrays) && nextPage == old(nextPage)
      ensures r.NotCreated? <==> !open || old(nextPage) + Array(0, shape, elemSize).NumPages() > virtualPages
    {
      NumPagesCeiling(Array(0, shape, elemSize));
      var page := AllocPages(Array(0, shape, elemSize).NumPages());
      if !page.Reserved? {
        return NotCreated(page);
      }
      var a := Array(page.page, shape, elemSize);
      assert a.NumPages() == Array(0, shape, elemSize).NumPages();
      arrays := arrays + [a];
      r := Created(|arrays| - 1);
    }

    /** The element an index tuple names, by the strides and flat-index loops. */
    method Resolve(a: Array, indices: seq<int>) returns (r: Option<nat>)
      ensures r == Locate(a, indices)
    {
      var strides := ComputeStrides(a.shape);
      var f := FlatIndex(a.shape, strides, indices);
      r := if f.At? then Some(f.flat) else None;
    }

    /** `__getitem__`. */
    method Get(k: nat, indices: seq<int>, net: Net) returns (out: Answer)
      requires Valid() && k < |arrays|
      modifies pager.Repr()
      ensures Valid() && Layout(arrays, virtualPages)
      ensures open ==> (pager.Model(), out) == ItemStep(old(pager.Model()), arrays, GetItem(k, indices, net))
      ensures !open ==> pager.Model() == old(pager.Model())
                        && out == if Locate(arrays[k], indices).None? then BadIndex else NoAccess
    {
      LayoutGrows(arrays, nextPage, virtualPages);
      var a := arrays[k];
      var at := Resolve(a, indices);
      if at.None? {
        return BadIndex;
      }
      if !open {
        return NoAccess;
      }
      ElementInArray(a, at.value);
      AccessKeeps(pager.Model(), a.PageOf(at.value), false, net);
      var f := pager.AccessPage(a.PageOf(at.value), false, net);
      if f.None? {
        return NoAccess;
      }
      var offset := a.OffsetOf(at.value);
      out := Value(pager.memory[f.value][offset..offset + a.elemSize]);
    }

    /** `__setitem__`. */
    method Set(k: nat, indices: seq<int>, value: Bytes, net: Net) returns (out: Answer)
      requires Valid() && k < |arrays| && |value| == arrays[k].elemSize
      modifies pager.Repr()
      ensures Valid() && Layout(arrays, virtualPages)
      ensures open ==> (pager.Model(), out) == ItemStep(old(pager.Model()), arrays, SetItem(k, indices, value, net))
      ensures !open ==> pager.Model() == old(pager.Model())
                        && out == if Locate(arrays[k], indices).None? then BadIndex else NoAccess
    {
      LayoutGrows(arrays, nextPage, virtualPages);
      var a := arrays[k];
      var at := Resolve(a, indices);
      if at.None? {
        return BadIndex;
      }
      if !open {
        return NoAccess;
      }
      ElementInArray(a, at.value);
      AccessKeeps(pager.Model(), a.PageOf(at.value), true, net);
      var f := pager.AccessPage(a.PageOf(at.value), true, net);
      if f.None? {
        return NoAccess;
      }
      StoreKeeps(pager.Model(), a.PageOf(at.value), Splice(pager.memory[f.value], a.OffsetOf(at.value), value));
      pager.StoreBytes(f.value, a.OffsetOf(at.value), value);
      out := Written;
    }

    /** One turn of the `to_numpy` loop. */
    method GetFlat(k: nat, strides: seq<nat>, flat: nat, net: Net) returns (r: Option<Bytes>)
      requires Valid() && pager.socket && k < |arrays| && flat < Size(arrays[k].shape)
      requires |strides| == |arrays[k].shape|
      requires forall i :: 0 <= i < |strides| ==> strides[i] == Size(arrays[k].shape[i + 1..])
      modifies pager.Repr()
      ensures Valid() && pager.socket && View(pager.Model()) == View(old(pager.Model()))
      ensures Layout(arrays, virtualPages)
      ensures r.Some? ==> open && r.value == ElemAt(View(old(pager.Model())), arrays[k], flat)
      ensures r.None? ==> !open || Fails(net)
    {
      LayoutGrows(arrays, nextPage, virtualPages);
      var a := arrays[k];
      var indices := UnravelLoop(a.shape, strides, flat);
      LocateFlat(a, indices, flat);
      LoadKeeps(pager.Model(), a, flat, net);
      var out := Get(k, indices, net);
      r := if out.Value? then Some(out.bytes) else None;
    }

    /** One turn of the `from_numpy` loop: one element of one array changes, or none. */
    method SetFlat(k: nat, strides: seq<nat>, flat: nat, value: Bytes, net: Net) returns (ok: bool)
      requires Valid() && pager.socket && k < |arrays| && flat < Size(arrays[k].shape)
      requires |strides| == |arrays[k].shape|
      requires forall i :: 0 <= i < |strides| ==> strides[i] == Size(arrays[k].shape[i + 1..])
      requires |value| == arrays[k].elemSize
      modifies pager.Repr()
      ensures Valid() && pager.socket && Layout(arrays, virtualPages)
      ensures !ok ==> View(pager.Model()) == View(old(pager.Model())) && (!open || Fails(net))
      ensures ok ==>
                Elements(View(pager.Model()), arrays[k]) == Elements(View(old(pager.Model())), arrays[k])[flat := value]
      ensures forall i :: 0 <= i < |arrays| && i != k ==>
                Contents(View(pager.Model()), arrays[i]) == Contents(View(old(pager.Model())), arrays[i])
    {
      LayoutGrows(arrays, nextPage, virtualPages);
      ghost var w := View(pager.Model());
      var a := arrays[k];
      var indices := UnravelLoop(a.shape, strides, flat);
      LocateFlat(a, indices, flat);
      SaveKeeps(pager.Model(), a, flat, value, net);
      OthersUntouched(w, arrays, k, indices, value);
      SpliceElements(w, a, flat, value);
      var out := Set(k, indices, value, net);
      ok := out.Written?;
    }

    /** `to_numpy`: every element, in row-major order; None only when the context is closed or an access fails. */
    method ToNumpy(k: nat, nets: seq<Net>) returns (r: Option<seq<Bytes>>)
      requires Valid() && pager.socket && k < |arrays| && |nets| == Size(arrays[k].shape)
      modifies pager.Repr()
      ensures Valid() && pager.socket && Layout(arrays, virtualPages)
      ensures View(pager.Model()) == View(old(pager.Model()))
      ensures r.Some? ==> r.value == Elements(View(old(pager.Model())), arrays[k])
      ensures r.None? ==> !open || exists i :: 0 <= i < |nets| && Fails(nets[i])
    {
      ghost var v := View(pager.Model());
      LayoutGrows(arrays, nextPage, virtualPages);
      var a := arrays[k];
      var strides := ComputeStrides(a.shape);
      var values: seq<Bytes> := [];
      for flat := 0 to Size(a.shape)
        invariant Valid() && pager.socket && View(pager.Model()) == v
        invariant values == Elements(v, a)[..flat]
      {
        var out := GetFlat(k, strides, flat, nets[flat]);
        if out.None? {
          return None;
        }
        PrefixSnoc(Elements(v, a), flat);
        values := values + [out.value];
      }
      r := Some(values);
    }

    /**
     `from_numpy`: a new array filled element by element. It fails for a closed context, an
     array that does not fit, one without elements, which NumPy's iterator refuses after the
     array has been made, and when an access fails.
     */
    method FromNumpy(shape: Shape, elemSize: nat, values: seq<Bytes>, nets: seq<Net>) returns (r: Option<nat>)
      requires Valid() && pager.socket && Array(0, shape, elemSize).Sized()
      requires |values| == |nets| == Size(shape) && forall i :: 0 <= i < |values| ==> |values[i]| == elemSize
      modifies Repr()
      ensures Valid() && old(arrays) <= arrays && Layout(arrays, virtualPages)
      ensures forall i :: 0 <= i < |old(arrays)| ==>
                Contents(View(pager.Model()), arrays[i]) == Contents(View(old(pager.Model())), arrays[i])
      ensures r.Some? ==> Size(shape) > 0 && r.value == |old(arrays)| < |arrays|
      ensures r.Some? ==> Elements(View(pager.Model()), arrays[r.value]) == values
      ensures !open || old(nextPage) + Array(0, shape, elemSize).NumPages() > virtualPages ==>
                r.None? && arrays == old(arrays)
      ensures r.None? ==>
                || !open || old(nextPage) + Array(0, shape, elemSize).NumPages() > virtualPages
                || Size(shape) == 0 || exists i :: 0 <= i < |nets| && Fails(nets[i])
    {
      var made := NewArray(shape, elemSize);
      LayoutGrows(arrays, nextPage, virtualPages);
      if made.NotCreated? {
        return None;
      }
      if Size(shape) == 0 {
        return None;
      }
      var ok := Fill(made.index, values, nets);
      r := if ok then Some(made.index) else None;
    }

    /** The loop of `from_numpy`: write every element of one array, touching no other. */
    method Fill(k: nat, values: seq<Bytes>, nets: seq<Net>) returns (ok: bool)
      requires Valid() && pager.socket && k < |arrays|
      requires |values| == |nets| == Size(arrays[k].shape)
      requires forall i :: 0 <= i < |values| ==> |values[i]| == arrays[k].elemSize
      modifies pager.Repr()
      ensures Valid() && pager.socket && Layout(arrays, virtualPages)
      ensures ok ==> Elements(View(pager.Model()), arrays[k]) == values
      ensures !ok ==> !open || exists i :: 0 <= i < |nets| && Fails(nets[i])
      ensures forall i :: 0 <= i < |arrays| && i != k ==>
                Contents(View(pager.Model()), arrays[i]) == Contents(View(old(pager.Model())), arrays[i])
    {
      LayoutGrows(arrays, nextPage, virtualPages);
      var strides := ComputeStrides(arrays[k].shape);
      for flat := 0 to Size(arrays[k].shape)
        invariant Valid() && pager.socket
        invariant forall i :: 0 <= i < |arrays| && i != k ==>
                    Contents(View(pager.Model()), arrays[i]) == Contents(View(old(pager.Model())), arrays[i])
        invariant Elements(View(pager.Model()), arrays[k])[..flat] == values[..flat]
      {
        ghost var before := Elements(View(pager.Model()), arrays[k]);
        ok := SetFlat(k, strides, flat, values[flat], nets[flat]);
        if !ok {
          return;
        }
        PrefixGrows(before, values, flat);
      }
      ok := true;
      ghost var now := Elements(View(pager.Model()), arrays[k]);
      assert now[..|now|] == now && values[..|values|] == values;
    }
  }

  lemma PrefixSnoc(es: seq<Bytes>, k: nat)
    requires k < |es|
    ensures es[..k + 1] == es[..k] + [es[k]]
  {
  }

  lemma PrefixGrows(before: seq<Bytes>, values: seq<Bytes>, k: nat)
    requires k < |before| == |values| && before[..k] == values[..k]
    ensures before[k := values[k]][..k + 1] == values[..k + 1]
  {
  }

  /** All elements of an array in memory v, in row-major order. */
  function Elements(v: seq<Page>, a: Array): seq<Bytes>
    requires a.Sized() && a.base + a.NumPages() <= |v|
  {
    seq(Size(a.shape), f requires 0 <= f < Size(a.shape) => ElemAt(v, a, f))
  }

  lemma LocateFlat(a: Array, indices: seq<int>, flat: nat)
    requires InBounds(a.shape, indices) && Flat(a.shape, indices) == flat
    ensures Locate(a, indices) == Some(flat) && Normals(a.shape, indices) == indices
  {
    assert Normals(a.shape, indices) == indices;
  }

  lemma OthersUntouched(v: seq<Page>, arrays: seq<Array>, k: nat, key: seq<int>, value: Bytes)
    requires Layout(arrays, |v|) && k < |arrays| && InBounds(arrays[k].shape, key)
    requires |value| == arrays[k].elemSize
    ensures var a, flat := arrays[k], Flat(arrays[k].shape, key);
            && 0 <= flat < Size(a.shape)
            && a.PageOf(flat) < |v| && a.OffsetOf(flat) + a.elemSize <= PAGE_SIZE
            && var w := v[a.PageOf(flat) := Splice(v[a.PageOf(flat)], a.OffsetOf(flat), value)];
               forall i :: 0 <= i < |arrays| && i != k ==> Contents(w, arrays[i]) == Contents(v, arrays[i])
  {
    var a, flat := arrays[k], Flat(arrays[k].shape, key);
    FlatBelowSize(a.shape, key);
    ElementInArray(a, flat);
    forall i | 0 <= i < |arrays| && i != k
      ensures Contents(v[a.PageOf(flat) := Splice(v[a.PageOf(flat)], a.OffsetOf(flat), value)], arrays[i])
           == Contents(v, arrays[i])
    {
      SpliceOne(v, a, key, value, arrays[i], false);
    }
  }

  lemma SpliceElements(v: seq<Page>, a: Array, flat: nat, value: Bytes)
    requires a.Sized() && a.base + a.NumPages() <= |v| && flat < Size(a.shape) && |value| == a.elemSize
    ensures a.PageOf(flat) < |v| && a.OffsetOf(flat) + a.elemSize <= PAGE_SIZE
    ensures var w := v[a.PageOf(flat) := Splice(v[a.PageOf(flat)], a.OffsetOf(flat), value)];
            Elements(w, a) == Elements(v, a)[flat := value]
  {
    ElementInArray(a, flat);
    forall f | 0 <= f < Size(a.shape)
      ensures var w := v[a.PageOf(flat) := Splice(v[a.PageOf(flat)], a.OffsetOf(flat), value)];
              ElemAt(w, a, f) == if f == flat then value else ElemAt(v, a, f)
    {
      SpliceElement(v, a, flat, value, a, f, true);
    }
  }
}
