/**
 Row-major addressing of N-dimensional arrays: strides, the flat index and its inverse,
 and the page and byte range of every element.
 */
module ArrayIndex {
  import opened Arith
  import opened Base

  type Shape = seq<nat>

  /** Number of elements. */
  function Size(shape: Shape): nat {
    if shape == [] then 1 else shape[0] * Size(shape[1..])
  }

  ghost predicate InBounds(shape: Shape, idx: seq<int>) {
    |idx| == |shape| && forall i :: 0 <= i < |idx| ==> 0 <= idx[i] < shape[i]
  }

  /** Position of an index tuple in row-major order. */
  function Flat(shape: Shape, idx: seq<int>): int
    requires |idx| == |shape|
  {
    if shape == [] then 0 else idx[0] * Size(shape[1..]) + Flat(shape[1..], idx[1..])
  }

  function Unravel(shape: Shape, flat: nat): seq<int>
    requires flat < Size(shape)
  {
    if shape == [] then []
    else
      TailPositive(shape, flat);
      var stride := Size(shape[1..]);
      [flat / stride] + Unravel(shape[1..], flat % stride)
  }

  lemma TailPositive(shape: Shape, flat: nat)
    requires shape != [] && flat < Size(shape)
    ensures Size(shape[1..]) > 0
  {
  }

  lemma {:induction false} FlatBelowSize(shape: Shape, idx: seq<int>)
    requires InBounds(shape, idx)
    ensures 0 <= Flat(shape, idx) < Size(shape)
  {
    if shape == [] {
    } else {
      FlatBelowSize(shape[1..], idx[1..]);
      var stride := Size(shape[1..]);
      assert idx[0] * stride <= (shape[0] - 1) * stride;
      assert (shape[0] - 1) * stride + stride == shape[0] * stride;
      assert 0 <= idx[0] * stride;
    }
  }

  /** Unravelling undoes flattening. */
  lemma {:induction false} UnravelFlat(shape: Shape, idx: seq<int>)
    requires InBounds(shape, idx)
    ensures 0 <= Flat(shape, idx) < Size(shape) && Unravel(shape, Flat(shape, idx)) == idx
  {
    FlatBelowSize(shape, idx);
    if shape == [] {
    } else {
      var tail, rest := shape[1..], idx[1..];
      FlatBelowSize(tail, rest);
      UnravelFlat(tail, rest);
      DivModUnique(Flat(shape, idx), Size(tail), idx[0], Flat(tail, rest));
      assert idx == [idx[0]] + rest;
    }
  }

  lemma QuotientBelow(x: nat, d: nat, n: nat)
    requires n > 0 && x < d * n
    ensures 0 <= x / n < d && (x / n) * n + x % n == x
  {
    var q := x / n;
    assert q >= d ==> q * n >= d * n;
  }

  /** Flattening undoes unravelling, so the two are inverse bijections. */
  lemma {:induction false} FlatUnravel(shape: Shape, flat: nat)
    requires flat < Size(shape)
    ensures InBounds(shape, Unravel(shape, flat)) && Flat(shape, Unravel(shape, flat)) == flat
  {
    if shape == [] {
    } else {
      TailPositive(shape, flat);
      var tail, stride := shape[1..], Size(shape[1..]);
      FlatUnravel(tail, flat % stride);
      QuotientBelow(flat, shape[0], stride);
      var idx := Unravel(shape, flat);
      assert idx[1..] == Unravel(tail, flat % stride);
      forall i | 0 <= i < |idx|
        ensures 0 <= idx[i] < shape[i]
      {
        if i > 0 { assert idx[i] == idx[1..][i - 1] && shape[i] == tail[i - 1]; }
      }
    }
  }

  // ---------- The loops ----------

  /** `_compute_strides`: each stride is the number of elements in the axes after it. */
  method ComputeStrides(shape: Shape) returns (strides: seq<nat>)
    ensures |strides| == |shape|
    ensures forall i :: 0 <= i < |shape| ==> strides[i] == Size(shape[i + 1..])
  {
    strides := seq(|shape|, _ => 1);
    var i := |shape| - 2;
    while i >= 0
      invariant -2 <= i < |shape| && |strides| == |shape|
      invariant i == -2 ==> shape == []
      invariant i == |shape| - 1 ==> shape == []
      invariant forall j :: 0 <= i + 1 <= j < |shape| ==> strides[j] == Size(shape[j + 1..])
    {
      assert shape[i + 1..][1..] == shape[i + 2..];
      assert strides[i + 1] * shape[i + 1] == Size(shape[i + 1..]);
      strides := strides[i := strides[i + 1] * shape[i + 1]];
      i := i - 1;
    }
  }

  /** The index a client means on an axis of the given size: negative counts from the end. */
  function Normal(idx: int, dim: nat): int {
    if idx < 0 then idx + dim else idx
  }

  function Normals(shape: Shape, idx: seq<int>): seq<int>
    requires |idx| == |shape|
  {
    seq(|idx|, i requires 0 <= i < |idx| => Normal(idx[i], shape[i]))
  }

  /** The in-range tuple `key` is what `idx` means: on each axis the same, or, counted from the end, one length more. */
  ghost predicate Means(shape: Shape, idx: seq<int>, key: seq<int>) {
    && |idx| == |shape| && InBounds(shape, key)
    && forall i :: 0 <= i < |shape| ==> key[i] == idx[i] || key[i] == idx[i] + shape[i]
  }

  /** An index tuple means something exactly if no axis is off by more than its length, and then one thing only. */
  lemma MeansExactly(shape: Shape, idx: seq<int>, key: seq<int>)
    requires |idx| == |shape|
    ensures Means(shape, idx, key) <==> key == Normals(shape, idx) && InBounds(shape, key)
    ensures InBounds(shape, Normals(shape, idx)) <==> forall i :: 0 <= i < |shape| ==> -shape[i] <= idx[i] < shape[i]
  {
    var norm := Normals(shape, idx);
    assert forall i :: 0 <= i < |shape| ==> norm[i] == Normal(idx[i], shape[i]);
    if Means(shape, idx, key) {
      assert key == norm;
    }
  }

  datatype IndexResult = At(flat: nat) | WrongRank | OutOfBounds(axis: nat)

  /** `_flat_index`: the flat position, or the error of the first axis that is out of range. */
  method FlatIndex(shape: Shape, strides: seq<nat>, indices: seq<int>) returns (r: IndexResult)
    requires |strides| == |shape| && forall i :: 0 <= i < |shape| ==> strides[i] == Size(shape[i + 1..])
    ensures r.WrongRank? <==> |indices| != |shape|
    ensures r.At? <==> |indices| == |shape| && InBounds(shape, Normals(shape, indices))
    ensures r.At? <==> |indices| == |shape| && forall i :: 0 <= i < |shape| ==> -shape[i] <= indices[i] < shape[i]
    ensures r.At? ==> r.flat == Flat(shape, Normals(shape, indices)) && r.flat < Size(shape)
    ensures r.At? ==> forall key :: Means(shape, indices, key) ==> r.flat == Flat(shape, key)
    ensures r.OutOfBounds? ==>
              && r.axis < |shape|
              && !(-shape[r.axis] <= indices[r.axis] < shape[r.axis])
              && forall i :: 0 <= i < r.axis ==> -shape[i] <= indices[i] < shape[i]
  {
    if |indices| != |shape| {
      return WrongRank;
    }
    ghost var norm := Normals(shape, indices);
    var flat: int := 0;
    for i := 0 to |shape|
      invariant flat + Flat(shape[i..], norm[i..]) == Flat(shape, norm)
      invariant forall j :: 0 <= j < i ==> 0 <= norm[j] < shape[j]
    {
      var idx, dim := indices[i], shape[i];
      if idx < 0 {
        idx := idx + dim;
      }
      assert idx == norm[i];
      if !(0 <= idx < dim) {
        return OutOfBounds(i);
      }
      assert shape[i..][1..] == shape[i + 1..] && norm[i..][1..] == norm[i + 1..];
      flat := flat + idx * strides[i];
    }
    FlatBelowSize(shape, norm);
    forall key | Means(shape, indices, key)
      ensures key == norm
    {
      MeansExactly(shape, indices, key);
    }
    r := At(flat);
  }

  /** The unravel loop of `to_numpy`, run on every flat index of the array. */
  method UnravelLoop(shape: Shape, strides: seq<nat>, flat: nat) returns (indices: seq<int>)
    requires |strides| == |shape| && forall i :: 0 <= i < |shape| ==> strides[i] == Size(shape[i + 1..])
    requires flat < Size(shape)
    ensures indices == Unravel(shape, flat)
    ensures InBounds(shape, indices) && Flat(shape, indices) == flat
  {
    indices := [];
    var remaining: nat := flat;
    for i := 0 to |shape|
      invariant remaining < Size(shape[i..])
      invariant indices + Unravel(shape[i..], remaining) == Unravel(shape, flat)
    {
      ghost var before := indices + Unravel(shape[i..], remaining);
      TailPositive(shape[i..], remaining);
      assert shape[i..][1..] == shape[i + 1..];
      ghost var q, rest := remaining / strides[i], Unravel(shape[i + 1..], remaining % strides[i]);
      indices := indices + [remaining / strides[i]];
      remaining := remaining % strides[i];
      assert indices + rest == before;
    }
    FlatUnravel(shape, flat);
  }

  // ---------- Elements in pages ----------

  /** An array of `shape` with elements of `elemSize` bytes, stored from page `base` on. */
  datatype Array = Array(base: nat, shape: Shape, elemSize: nat) {

    /** Element sizes of the supported types: 1, 4 and 8 bytes. */
    predicate Sized() {
      elemSize == 1 || elemSize == 4 || elemSize == 8
    }

    function ElemsPerPage(): nat
      requires Sized()
    {
      PAGE_SIZE / elemSize
    }

    function NumPages(): int {
      -((-(Size(shape) * elemSize)) / PAGE_SIZE)
    }

    function PageOf(flat: nat): nat
      requires Sized()
    {
      base + flat / ElemsPerPage()
    }

    function OffsetOf(flat: nat): nat
      requires Sized()
    {
      (flat % ElemsPerPage()) * elemSize
    }
  }

  /** An array takes the fewest whole pages that hold its bytes. */
  lemma NumPagesCeiling(a: Array)
    requires a.Sized()
    ensures a.NumPages() >= 0
    ensures Size(a.shape) * a.elemSize <= a.NumPages() * PAGE_SIZE < Size(a.shape) * a.elemSize + PAGE_SIZE
  {
  }

  /** Every element lies within one page, and that page is one of the array's. */
  lemma ElementInArray(a: Array, flat: nat)
    requires a.Sized() && flat < Size(a.shape)
    ensures a.base <= a.PageOf(flat) < a.base + a.NumPages()
    ensures a.OffsetOf(flat) + a.elemSize <= PAGE_SIZE
  {
    NumPagesCeiling(a);
    if a.elemSize == 1 {
      assert a.ElemsPerPage() == 4096;
    } else if a.elemSize == 4 {
      assert a.ElemsPerPage() == 1024;
    } else {
      assert a.ElemsPerPage() == 512;
    }
  }

  /** Elements lie one behind the other, in row-major order, from the first byte of the array on. */
  lemma ElementAddress(a: Array, flat: nat)
    requires a.Sized()
    ensures a.PageOf(flat) * PAGE_SIZE + a.OffsetOf(flat) == a.base * PAGE_SIZE + flat * a.elemSize
  {
    if a.elemSize == 1 {
      assert a.ElemsPerPage() == 4096;
    } else if a.elemSize == 4 {
      assert a.ElemsPerPage() == 1024;
    } else {
      assert a.ElemsPerPage() == 512;
    }
  }

  /** Distinct elements of one array share no byte. */
  lemma ElementsApart(a: Array, i: nat, j: nat)
    requires a.Sized() && i != j
    ensures a.PageOf(i) != a.PageOf(j)
         || a.OffsetOf(i) + a.elemSize <= a.OffsetOf(j) || a.OffsetOf(j) + a.elemSize <= a.OffsetOf(i)
  {
  }
}
