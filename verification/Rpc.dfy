/**
 The page protocol over a byte stream: requests, the server's request loop, and the
 client's single, batched and write calls.
 */
module Rpc {
  import opened Base
  import opened Stream
  import opened Words

  const OP_GET_PAGE: byte := 1
  const OP_PUT_PAGE: byte := 2
  const OP_ACK: byte := 3
  const HEADER_SIZE: nat := 8

  /** `dsm_rpc_make_header`. */
  function MakeHeader(op: byte, page: u32): (b: Bytes)
    ensures |b| == HEADER_SIZE
  {
    [op, 0, 0, 0] + Le32(page)
  }

  /** The header on the wire: the operation, three zero bytes, the page id in little-endian order. */
  lemma HeaderLayout(op: byte, page: u32)
    ensures var b := MakeHeader(op, page);
            b[0] == op && b[1] == b[2] == b[3] == 0 && Un32(b[4..8]) == page
  {
    assert MakeHeader(op, page)[4..8] == Le32(page);
    Words32(page);
  }

  /** A request as the server sees it; one with an unknown code is read and ignored. */
  datatype Request = Get(page: u32) | Put(page: u32, data: Page) | Other(op: byte, page: u32)

  predicate WellFormed(r: Request) {
    r.Other? ==> r.op != OP_GET_PAGE && r.op != OP_PUT_PAGE
  }

  function Encode(r: Request): Bytes {
    match r
    case Get(page) => MakeHeader(OP_GET_PAGE, page)
    case Put(page, data) => MakeHeader(OP_PUT_PAGE, page) + data
    case Other(op, page) => MakeHeader(op, page)
  }

  function EncodeAll(rs: seq<Request>): Bytes {
    if rs == [] then [] else Encode(rs[0]) + EncodeAll(rs[1..])
  }

  /** The first complete request in b, and the bytes after it. */
  function NextRequest(b: Bytes): (r: Option<(Request, Bytes)>)
    ensures r.Some? ==> |r.value.1| < |b|
  {
    if |b| < HEADER_SIZE then None
    else
      var op, page := b[0], Un32(b[4..8]);
      if op == OP_GET_PAGE then Some((Get(page), b[HEADER_SIZE..]))
      else if op != OP_PUT_PAGE then Some((Other(op, page), b[HEADER_SIZE..]))
      else if |b| < HEADER_SIZE + PAGE_SIZE then None
      else Some((Put(page, b[HEADER_SIZE..HEADER_SIZE + PAGE_SIZE]), b[HEADER_SIZE + PAGE_SIZE..]))
  }

  /** All complete requests in b. */
  function Requests(b: Bytes): seq<Request>
    decreases |b|
  {
    match NextRequest(b)
    case None => []
    case Some((r, rest)) => [r] + Requests(rest)
  }

  lemma NextRequestOf(r: Request, rest: Bytes)
    requires WellFormed(r)
    ensures NextRequest(Encode(r) + rest) == Some((r, rest))
  {
    var b := Encode(r) + rest;
    assert b[4..8] == Le32(r.page);
    Words32(r.page);
    assert r.Put? ==> b[HEADER_SIZE..HEADER_SIZE + PAGE_SIZE] == r.data;
    assert b[|Encode(r)|..] == rest;
  }

  /** The operation codes on the wire. */
  lemma RequestCodes(page: u32, data: Page)
    ensures Encode(Get(page)) == [1, 0, 0, 0] + Le32(page)
    ensures Encode(Put(page, data)) == [2, 0, 0, 0] + Le32(page) + data
    ensures MakeHeader(OP_ACK, page) == [3, 0, 0, 0] + Le32(page)
  {
  }

  /** Requests follow each other on the stream without separators and are told apart all the same. */
  lemma {:induction false} RequestsRoundTrip(rs: seq<Request>)
    requires forall i :: 0 <= i < |rs| ==> WellFormed(rs[i])
    ensures Requests(EncodeAll(rs)) == rs
  {
    if rs == [] {
    } else {
      RequestsRoundTrip(rs[1..]);
      NextRequestOf(rs[0], EncodeAll(rs[1..]));
    }
  }

  // ---------- What a server does with requests ----------

  /** A server with its page range if it is in a cluster. */
  datatype Server = Server(storage: seq<Page>, range: Option<(u32, u32)>)

  /** How the forward of a request went, where one was needed. */
  datatype Forward = Fetched(page: Page) | Accepted | Unreachable

  predicate Serves(sv: Server, page: u32) {
    (sv.range.None? || sv.range.value.0 <= page < sv.range.value.1) && page < |sv.storage|
  }

  /** One request: the new state and the reply, or None when the connection is given up. */
  function Handle(sv: Server, r: Request, fwd: Forward): (Server, Option<Bytes>) {
    match r
    case Get(page) =>
      (sv, Some(if Serves(sv, page) then sv.storage[page]
                else if sv.range.Some? && fwd.Fetched? then fwd.page
                else ZERO_PAGE))
    case Put(page, data) =>
      if Serves(sv, page) then (sv.(storage := sv.storage[page := data]), Some(MakeHeader(OP_ACK, page)))
      else if sv.range.Some? && fwd.Accepted? then (sv, Some(MakeHeader(OP_ACK, page)))
      else (sv, None)
    case Other(_, _) => (sv, Some([]))
  }

  function ForwardOf(fwds: seq<Forward>, i: nat): Forward {
    if i < |fwds| then fwds[i] else Unreachable
  }

  /** Requests handled in order: the state, all replies, and whether the connection survived. */
  function ServeAll(sv: Server, rs: seq<Request>, fwds: seq<Forward>): (Server, Bytes, bool) {
    if rs == [] then (sv, [], true)
    else
      var k := |rs| - 1;
      var (st, out, alive) := ServeAll(sv, rs[..k], fwds);
      if !alive then (st, out, false)
      else
        var (st', reply) := Handle(st, rs[k], ForwardOf(fwds, k));
        if reply.None? then (st', out, false) else (st', out + reply.value, true)
  }

  lemma ServeNext(sv: Server, rs: seq<Request>, fwds: seq<Forward>, k: nat)
    requires k < |rs| && ServeAll(sv, rs[..k], fwds).2
    ensures var (st, out, _) := ServeAll(sv, rs[..k], fwds);
            var (st', reply) := Handle(st, rs[k], ForwardOf(fwds, k));
            ServeAll(sv, rs[..k + 1], fwds) ==
            if reply.None? then (st', out, false) else (st', out + reply.value, true)
  {
    assert rs[..k + 1][..k] == rs[..k];
  }

  // ---------- The request loop ----------

  class PageServer {
    const storage: array<Page>
    const range: Option<(u32, u32)>

    constructor (numPages: nat, range: Option<(u32, u32)>)
      ensures fresh(storage) && Model() == Server(seq(numPages, _ => ZERO_PAGE), range)
    {
      storage := new Page[numPages](_ => ZERO_PAGE);
      this.range := range;
    }

    ghost function Model(): Server
      reads storage
    {
      Server(storage[..], range)
    }

    /** One pass of the loop body after the request has been read: local, forwarded or refused. */
    method Respond(r: Request, fwd: Forward) returns (reply: Option<Bytes>)
      modifies storage
      ensures (Model(), reply) == Handle(old(Model()), r, fwd)
      ensures r.Get? && r.page < |old(Model()).storage|
              && (range.Some? ==> range.value.0 <= r.page < range.value.1) ==>
                reply == Some(old(Model()).storage[r.page])
    {
      match r
      case Get(page) =>
        if Serves(Server(storage[..], range), page) {
          reply := Some(storage[page]);
        } else if range.Some? && fwd.Fetched? {
          reply := Some(fwd.page);
        } else {
          reply := Some(ZERO_PAGE);
        }
      case Put(page, data) =>
        if Serves(Server(storage[..], range), page) {
          storage[page] := data;
          reply := Some(MakeHeader(OP_ACK, page));
        } else if range.Some? && fwd.Accepted? {
          reply := Some(MakeHeader(OP_ACK, page));
        } else {
          reply := None;
        }
      case Other(_, _) =>
        reply := Some([]);
    }

    /** Read one request off the stream: the header, and the page data behind a PUT. */
    method ReadRequest(input: Bytes, recvs: seq<Io>) returns (r: Option<Request>, left: Bytes, rest: seq<Io>)
      ensures r.Some? ==> NextRequest(input) == Some((r.value, left))
      ensures r.None? && NextRequest(input).Some? ==> !Steady(recvs) || Calls(recvs) < |input|
      ensures Steady(recvs) && r.Some? ==> Steady(rest) && Calls(rest) + |input| >= Calls(recvs) + |left|
    {
      var rc, header;
      SteadyDelivers(HEADER_SIZE, recvs);
      rc, header, left, rest := RecvFull(input, HEADER_SIZE, recvs);
      if rc < 0 {
        return None, left, rest;
      }
      assert header == input[..HEADER_SIZE] && left == input[HEADER_SIZE..];
      assert input[4..8] == header[4..8];
      if header[0] == OP_PUT_PAGE {
        var data;
        SteadyDelivers(PAGE_SIZE, rest);
        rc, data, left, rest := RecvFull(left, PAGE_SIZE, rest);
        if rc < 0 {
          return None, left, rest;
        }
        assert data == input[HEADER_SIZE..HEADER_SIZE + PAGE_SIZE] && left == input[HEADER_SIZE + PAGE_SIZE..];
        return Some(Put(Un32(header[4..8]), data)), left, rest;
      }
      if header[0] == OP_GET_PAGE {
        return Some(Get(Un32(header[4..8]))), left, rest;
      }
      r := Some(Other(header[0], Un32(header[4..8])));
    }

    /**
     The request loop of one client connection. Whatever the kernel does, the server has
     handled a prefix of the requests on the stream, in order, and sent a prefix of their
     replies; if reads and writes keep moving, it handles all it can and sends every reply.
     */
    method HandleClient(input: Bytes, recvs: seq<Io>, sends: seq<Io>, fwds: seq<Forward>)
      returns (output: Bytes, handled: nat)
      modifies storage
      ensures handled <= |Requests(input)|
      ensures Model() == ServeAll(old(Model()), Requests(input)[..handled], fwds).0
      ensures output <= ServeAll(old(Model()), Requests(input)[..handled], fwds).1
      ensures && Steady(recvs) && Calls(recvs) >= |input|
              && Steady(sends) && Calls(sends) >= |ServeAll(old(Model()), Requests(input), fwds).1| ==>
                && output == ServeAll(old(Model()), Requests(input), fwds).1
                && Model() == ServeAll(old(Model()), Requests(input), fwds).0
    {
      ghost var sv, rs := Model(), Requests(input);
      ghost var smooth := Steady(recvs) && Calls(recvs) >= |input|
                          && Steady(sends) && Calls(sends) >= |ServeAll(sv, rs, fwds).1|;
      output, handled := [], 0;
      var left, ins, outs := input, recvs, sends;
      while true
        invariant handled <= |rs| && Requests(left) == rs[handled..]
        invariant ServeAll(sv, rs[..handled], fwds) == (Model(), output, true)
        invariant smooth ==> Steady(ins) && Calls(ins) >= |left|
        invariant smooth ==> Steady(outs) && Calls(outs) + |output| >= |ServeAll(sv, rs, fwds).1|
        decreases |left|
      {
        ghost var before := left;
        var r;
        r, left, ins := ReadRequest(left, ins);
        if r.None? {
          assert smooth ==> Requests(before) == [] && handled == |rs|;
          assert rs[..|rs|] == rs;
          break;
        }
        assert rs[handled] == r.value && rs[handled..][1..] == rs[handled + 1..];
        ServeNext(sv, rs, fwds, handled);
        var reply := Respond(r.value, ForwardOf(fwds, handled));
        handled := handled + 1;
        ServePrefix(sv, rs, fwds, handled);
        if reply.None? {
          break;
        }
        var rc, sent;
        SteadyDelivers(|reply.value|, outs);
        rc, sent, outs := SendFull(reply.value, outs);
        output := output + sent;
        if rc < 0 {
          break;
        }
        assert sent == reply.value;
      }
    }
  }

  /** What a longer list of requests sends extends what a prefix of it sends. */
  lemma {:induction false} ServePrefix(sv: Server, rs: seq<Request>, fwds: seq<Forward>, k: nat)
    requires k <= |rs|
    ensures var (st, out, alive) := ServeAll(sv, rs[..k], fwds);
            var (st', out', alive') := ServeAll(sv, rs, fwds);
            out <= out' && (!alive ==> st' == st && out' == out && !alive')
  {
    if k == |rs| {
      assert rs[..k] == rs;
    } else {
      var n := |rs| - 1;
      ServePrefix(sv, rs[..n], fwds, k);
      assert rs[..n][..k] == rs[..k];
    }
  }
}
