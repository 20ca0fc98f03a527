/**
 The byte-stream loops: sending, gathering and receiving exactly n bytes while the kernel
 moves as few or as many as it likes, is interrupted, or fails.
 */
module Stream {
  import opened Base

  /**
   What one system call does: moves up to n bytes (none means end of stream), is
   interrupted, or fails. A schedule lists the calls of one connection; past its end the
   connection fails.
   */
  datatype Io = Moved(n: nat) | Interrupted | Error

  function Min(a: nat, b: nat): nat {
    if a < b then a else b
  }

  /** A schedule on which `len` bytes get through before anything goes wrong. */
  function Delivers(len: nat, sched: seq<Io>): bool {
    if len == 0 then true
    else if sched == [] then false
    else match sched[0]
      case Moved(n) => n > 0 && Delivers(len - Min(n, len), sched[1..])
      case Interrupted => Delivers(len, sched[1..])
      case Error => false
  }

  /** The part of the schedule left over once `len` bytes have been asked for. */
  function Leftover(len: nat, sched: seq<Io>): seq<Io> {
    if len == 0 || sched == [] then sched
    else match sched[0]
      case Moved(n) => if n > 0 then Leftover(len - Min(n, len), sched[1..]) else sched[1..]
      case Interrupted => Leftover(len, sched[1..])
      case Error => sched[1..]
  }

  /** The bytes the first k calls of a schedule offer to move. */
  function Offered(sched: seq<Io>, k: nat): nat
    requires k <= |sched|
  {
    if k == 0 then 0 else Offered(sched, k - 1) + if sched[k - 1].Moved? then sched[k - 1].n else 0
  }

  /** The first k calls go well: each moves something or is interrupted, and they offer `len` bytes or more. */
  ghost predicate WellUpTo(len: nat, sched: seq<Io>, k: nat) {
    && k <= |sched| && Offered(sched, k) >= len
    && forall i :: 0 <= i < k ==> sched[i].Interrupted? || (sched[i].Moved? && sched[i].n > 0)
  }

  lemma {:induction false} OfferedFrom(sched: seq<Io>, k: nat)
    requires 0 < k <= |sched|
    ensures Offered(sched, k) == (if sched[0].Moved? then sched[0].n else 0) + Offered(sched[1..], k - 1)
  {
    if k == 1 {
      assert Offered(sched, 0) == 0;
    } else {
      OfferedFrom(sched, k - 1);
    }
  }

  /**
   Bytes get through exactly if, up to some point, every call moves something or is merely
   interrupted, and what they move adds up; interruptions are retried, and a call that moves
   nothing is a failure.
   */
  lemma {:induction false} DeliversExactly(len: nat, sched: seq<Io>)
    ensures Delivers(len, sched) <==> exists k: nat :: WellUpTo(len, sched, k)
    decreases |sched|
  {
    if len == 0 {
      assert WellUpTo(0, sched, 0);
    } else if sched == [] {
    } else {
      var n := if sched[0].Moved? then Min(sched[0].n, len) else 0;
      var less, rest := len - n, sched[1..];
      DeliversExactly(less, rest);
      if k: nat :| WellUpTo(len, sched, k) {
        OfferedFrom(sched, k);
        assert WellUpTo(less, rest, k - 1);
      }
      if k: nat :| WellUpTo(less, rest, k) {
        OfferedFrom(sched, k + 1);
        assert !sched[0].Error? && (sched[0].Moved? ==> sched[0].n > 0) ==> WellUpTo(len, sched, k + 1);
      }
    }
  }

  /** A schedule on which n transfers of `len` bytes each get through, one after the other. */
  function DeliversEach(n: nat, len: nat, sched: seq<Io>): bool {
    n == 0 || (Delivers(len, sched) && DeliversEach(n - 1, len, Leftover(len, sched)))
  }

  /** `dsm_send_full`: always a prefix of the buffer on the wire, all of it exactly on success. */
  method SendFull(buf: Bytes, sched: seq<Io>) returns (rc: int, sent: Bytes, rest: seq<Io>)
    ensures sent <= buf
    ensures rc == (if sent == buf then 0 else -1)
    ensures rc == 0 <==> Delivers(|buf|, sched)
    ensures rest == Leftover(|buf|, sched)
  {
    sent, rest := [], sched;
    while |sent| < |buf|
      invariant sent <= buf
      invariant Delivers(|buf| - |sent|, rest) == Delivers(|buf|, sched)
      invariant Leftover(|buf| - |sent|, rest) == Leftover(|buf|, sched)
      decreases |rest|
    {
      if rest == [] {
        return -1, sent, rest;
      }
      var call := rest[0];
      rest := rest[1..];
      if call.Error? || (call.Moved? && call.n == 0) {
        return -1, sent, rest;
      }
      if call.Moved? {
        var n := Min(call.n, |buf| - |sent|);
        sent := sent + buf[|sent|..|sent| + n];
      }
    }
    rc := 0;
  }

  /** `dsm_recv_full`: the next `len` bytes of the stream on success, and a stream cut there. */
  method RecvFull(stream: Bytes, len: nat, sched: seq<Io>) returns (rc: int, got: Bytes, left: Bytes, rest: seq<Io>)
    ensures got + left == stream && |got| <= len
    ensures rc == (if |got| == len then 0 else -1)
    ensures len <= |stream| ==> (rc == 0 <==> Delivers(len, sched)) && rest == Leftover(len, sched)
    ensures len > |stream| ==> rc == -1
  {
    got, left, rest := [], stream, sched;
    while |got| < len
      invariant got + left == stream && |got| <= len
      invariant len <= |stream| ==> Delivers(len - |got|, rest) == Delivers(len, sched)
      invariant len <= |stream| ==> Leftover(len - |got|, rest) == Leftover(len, sched)
      decreases |rest|
    {
      if rest == [] {
        return -1, got, left, rest;
      }
      var call := rest[0];
      rest := rest[1..];
      if call.Error? {
        return -1, got, left, rest;
      }
      if call.Moved? {
        var n := Min(Min(call.n, len - |got|), |left|);
        if n == 0 {
          return -1, got, left, rest;
        }
        got, left := got + left[..n], left[n..];
      }
    }
    rc := 0;
  }

  // ---------- Gathered writes ----------

  function Concat(bufs: seq<Bytes>): Bytes {
    if bufs == [] then [] else bufs[0] + Concat(bufs[1..])
  }

  /** Drop `n` bytes from the front of a vector list: the inner loop of `dsm_sendv`. */
  method Advance(iov: array<Bytes>, cur: nat, n: nat) returns (next: nat)
    requires cur < iov.Length && 0 < n <= |Concat(iov[cur..])|
    modifies iov
    ensures cur <= next <= iov.Length
    ensures Concat(iov[next..]) == old(Concat(iov[cur..]))[n..]
    ensures next < iov.Length ==> (iov[iov.Length - 1] == [] <==> old(iov[iov.Length - 1]) == [])
    ensures next == iov.Length ==> old(iov[iov.Length - 1]) != []
  {
    ghost var whole, last := Concat(iov[cur..]), iov[iov.Length - 1];
    var written: nat := n;
    next := cur;
    while written > 0 && next < iov.Length
      invariant cur <= next <= iov.Length && written <= |Concat(iov[next..])|
      invariant Concat(iov[next..])[written..] == whole[n..]
      invariant next < iov.Length ==> (iov[iov.Length - 1] == [] <==> last == [])
      invariant next == iov.Length ==> last != []
      decreases iov.Length - next, written
    {
      assert iov[next..][0] == iov[next] && iov[next..][1..] == iov[next + 1..];
      ghost var before := Concat(iov[next..]);
      if written >= |iov[next]| {
        assert before[written..] == Concat(iov[next + 1..])[written - |iov[next]|..];
        written := written - |iov[next]|;
        assert next + 1 == iov.Length ==> Concat(iov[next + 1..]) == [];
        next := next + 1;
      } else {
        ghost var tail := iov[next + 1..];
        iov[next] := iov[next][written..];
        assert iov[next..] == [iov[next]] + tail;
        assert Concat(iov[next..]) == before[written..];
        written := 0;
      }
    }
    assert next == iov.Length ==> iov[next..] == [];
  }

  /**
   `dsm_sendv`: always a prefix of the concatenated vectors on the wire. Unless the last
   vector is empty it succeeds exactly when all of them are out; a trailing empty vector
   makes it fail under every schedule, even after everything has been sent.
   */
  method SendVectors(vectors: seq<Bytes>, sched: seq<Io>) returns (rc: int, sent: Bytes, rest: seq<Io>)
    ensures sent <= Concat(vectors) && (rc == 0 || rc == -1)
    ensures rc == 0 ==> sent == Concat(vectors)
    ensures vectors == [] || vectors[|vectors| - 1] != [] ==>
              (rc == 0 <==> sent == Concat(vectors)) && (rc == 0 <==> Delivers(|Concat(vectors)|, sched))
    ensures vectors != [] && vectors[|vectors| - 1] == [] ==> rc == -1
  {
    var iov := new Bytes[|vectors|](i requires 0 <= i < |vectors| => vectors[i]);
    assert iov[0..] == vectors;
    var cur := 0;
    sent, rest := [], sched;
    ghost var total := |Concat(vectors)|;
    while cur < iov.Length
      invariant cur <= iov.Length == |vectors|
      invariant sent + Concat(iov[cur..]) == Concat(vectors)
      invariant Delivers(total - |sent|, rest) == Delivers(total, sched)
      invariant cur < iov.Length ==> (iov[iov.Length - 1] == [] <==> vectors[|vectors| - 1] == [])
      invariant cur == iov.Length && vectors != [] ==> vectors[|vectors| - 1] != []
      decreases |rest|
    {
      LastNonEmpty(iov[cur..]);
      if rest == [] {
        return -1, sent, rest;
      }
      var call := rest[0];
      rest := rest[1..];
      if call.Error? {
        return -1, sent, rest;
      }
      if call.Moved? {
        var pending := Concat(iov[cur..]);
        var written := Min(call.n, |pending|);
        if written == 0 {
          return -1, sent, rest;
        }
        SentMore(sent, pending, written);
        sent := sent + pending[..written];
        cur := Advance(iov, cur, written);
      }
    }
    rc := 0;
  }

  lemma SentMore(sent: Bytes, pending: Bytes, n: nat)
    requires n <= |pending|
    ensures (sent + pending[..n]) + pending[n..] == sent + pending
  {
  }

  /** Vectors that end in a non-empty one have bytes left to send. */
  lemma {:induction false} LastNonEmpty(bufs: seq<Bytes>)
    requires bufs != []
    ensures bufs[|bufs| - 1] != [] ==> Concat(bufs) != []
  {
    if |bufs| <= 1 {
    } else {
      LastNonEmpty(bufs[1..]);
    }
  }

  /** A schedule without failures or stalls. */
  predicate Steady(sched: seq<Io>) {
    forall i :: 0 <= i < |sched| ==> !sched[i].Error? && sched[i] != Moved(0)
  }

  /** How many calls of a schedule move something. */
  function Calls(sched: seq<Io>): nat {
    if sched == [] then 0 else (if sched[0].Moved? then 1 else 0) + Calls(sched[1..])
  }

  /** A steady schedule with a moving call for every byte delivers, and uses up at most one call a byte. */
  lemma {:induction false} SteadyDelivers(len: nat, sched: seq<Io>)
    ensures Steady(sched) && Calls(sched) >= len ==> Delivers(len, sched)
    ensures Steady(sched) ==> Steady(Leftover(len, sched)) && Calls(Leftover(len, sched)) + len >= Calls(sched)
    decreases |sched|
  {
    if len == 0 || sched == [] {
    } else {
      var n := if sched[0].Moved? then Min(sched[0].n, len) else 0;
      SteadyDelivers(len - n, sched[1..]);
    }
  }
}
