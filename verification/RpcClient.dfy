/** The client's calls, each over the bytes it sends and the reply stream it reads. */
module RpcClient {
  import opened Base
  import opened Stream
  import opened Rpc
  import opened Words

  /** `dsm_rpc_get`: one header out, one page in. */
  method RpcGet(page: u32, replies: Bytes, sends: seq<Io>, recvs: seq<Io>)
    returns (rc: int, sent: Bytes, buf: Bytes, left: Bytes, outs: seq<Io>, ins: seq<Io>)
    ensures sent <= Encode(Get(page)) && buf + left == replies && outs == Leftover(HEADER_SIZE, sends) && rc <= 0
    ensures rc == 0 ==> sent == Encode(Get(page)) && |buf| == PAGE_SIZE && ins == Leftover(PAGE_SIZE, recvs)
    ensures rc == 0 <==> Delivers(HEADER_SIZE, sends) && |replies| >= PAGE_SIZE && Delivers(PAGE_SIZE, recvs)
  {
    var r;
    r, sent, outs := SendFull(MakeHeader(OP_GET_PAGE, page), sends);
    if r < 0 {
      return -1, sent, [], replies, outs, recvs;
    }
    r, buf, left, ins := RecvFull(replies, PAGE_SIZE, recvs);
    rc := if r < 0 then -1 else 0;
  }

  function Gets(ids: seq<u32>): seq<Request> {
    seq(|ids|, i requires 0 <= i < |ids| => Get(ids[i]))
  }

  /** The connection carries n headers out and n pages in. */
  predicate Carries(n: nat, replies: Bytes, sends: seq<Io>, recvs: seq<Io>) {
    DeliversEach(n, HEADER_SIZE, sends) && |replies| >= n * PAGE_SIZE && DeliversEach(n, PAGE_SIZE, recvs)
  }

  /** The first n pages of a reply stream. */
  function Pages(replies: Bytes, n: nat): seq<Bytes>
    requires |replies| >= n * PAGE_SIZE
  {
    if n == 0 then [] else [replies[..PAGE_SIZE]] + Pages(replies[PAGE_SIZE..], n - 1)
  }

  /**
   `dsm_rpc_get_batch`: all headers out, then one page in for each. It succeeds exactly when
   the connection carries them all, and then holds the reply stream cut into pages.
   */
  method RpcGetBatch(ids: seq<u32>, replies: Bytes, sends: seq<Io>, recvs: seq<Io>)
    returns (rc: int, sent: Bytes, bufs: seq<Bytes>, left: Bytes)
    ensures sent <= EncodeAll(Gets(ids)) && Concat(bufs) + left == replies
    ensures rc == 0 <==> Carries(|ids|, replies, sends, recvs)
    ensures rc == 0 ==> sent == EncodeAll(Gets(ids))
    ensures rc == 0 ==> bufs == Pages(replies, |ids|) && left == replies[|ids| * PAGE_SIZE..]
  {
    CutExactly(|ids|, replies, recvs);
    sent, bufs, left := [], [], replies;
    if |ids| == 0 {
      return 0, sent, bufs, left;
    }
    rc, sent := SendGets(ids, sends);
    if rc < 0 {
      return;
    }
    rc, bufs, left := RecvPages(|ids|, replies, recvs);
  }

  /** The sending half of a batch. */
  method SendGets(ids: seq<u32>, sends: seq<Io>) returns (rc: int, sent: Bytes)
    ensures sent <= EncodeAll(Gets(ids)) && (rc == 0 || rc == -1)
    ensures rc == 0 ==> sent == EncodeAll(Gets(ids))
    ensures rc == 0 <==> DeliversEach(|ids|, HEADER_SIZE, sends)
  {
    sent := [];
    var outs := sends;
    for i := 0 to |ids|
      invariant sent + EncodeAll(Gets(ids[i..])) == EncodeAll(Gets(ids))
      invariant DeliversEach(|ids| - i, HEADER_SIZE, outs) == DeliversEach(|ids|, HEADER_SIZE, sends)
    {
      var r, part;
      r, part, outs := SendFull(MakeHeader(OP_GET_PAGE, ids[i]), outs);
      GetsFrom(ids, i);
      PartSent(sent, part, Encode(Get(ids[i])), EncodeAll(Gets(ids[i + 1..])));
      sent := sent + part;
      if r < 0 {
        return -1, sent;
      }
    }
    rc := 0;
  }

  lemma GetsFrom(ids: seq<u32>, i: nat)
    requires i < |ids|
    ensures EncodeAll(Gets(ids[i..])) == Encode(Get(ids[i])) + EncodeAll(Gets(ids[i + 1..]))
  {
    assert Gets(ids[i..])[0] == Get(ids[i]) && Gets(ids[i..])[1..] == Gets(ids[i + 1..]);
  }

  lemma PartSent(sent: Bytes, part: Bytes, whole: Bytes, rest: Bytes)
    requires part <= whole
    ensures sent + part <= sent + (whole + rest)
    ensures part == whole ==> (sent + part) + rest == sent + (whole + rest)
  {
  }

  /** n pages cut off a reply stream, and the rest of it, if the transfers get through. */
  function Cut(n: nat, replies: Bytes, recvs: seq<Io>): Option<(seq<Bytes>, Bytes)> {
    if n == 0 then Some(([], replies))
    else if |replies| < PAGE_SIZE || !Delivers(PAGE_SIZE, recvs) then None
    else Prepend([replies[..PAGE_SIZE]], Cut(n - 1, replies[PAGE_SIZE..], Leftover(PAGE_SIZE, recvs)))
  }

  function Prepend(bufs: seq<Bytes>, cut: Option<(seq<Bytes>, Bytes)>): Option<(seq<Bytes>, Bytes)> {
    if cut.None? then None else Some((bufs + cut.value.0, cut.value.1))
  }

  lemma {:induction false} CutExactly(n: nat, replies: Bytes, recvs: seq<Io>)
    ensures Cut(n, replies, recvs).Some? <==> |replies| >= n * PAGE_SIZE && DeliversEach(n, PAGE_SIZE, recvs)
    ensures Cut(n, replies, recvs).Some? ==>
            Cut(n, replies, recvs).value == (Pages(replies, n), replies[n * PAGE_SIZE..])
    decreases n
  {
    if n == 0 {
    } else if |replies| >= PAGE_SIZE {
      CutExactly(n - 1, replies[PAGE_SIZE..], Leftover(PAGE_SIZE, recvs));
    }
  }

  lemma PrependNothing(bufs: seq<Bytes>, cut: Option<(seq<Bytes>, Bytes)>, left: Bytes)
    ensures Prepend([], cut) == cut && Prepend(bufs, Some(([], left))) == Some((bufs, left))
  {
    assert bufs + [] == bufs;
    assert cut.Some? ==> [] + cut.value.0 == cut.value.0;
  }

  lemma CutNext(bufs: seq<Bytes>, n: nat, left: Bytes, ins: seq<Io>)
    requires n > 0 && |left| >= PAGE_SIZE && Delivers(PAGE_SIZE, ins)
    ensures Prepend(bufs, Cut(n, left, ins)) ==
            Prepend(bufs + [left[..PAGE_SIZE]], Cut(n - 1, left[PAGE_SIZE..], Leftover(PAGE_SIZE, ins)))
  {
    var rest := Cut(n - 1, left[PAGE_SIZE..], Leftover(PAGE_SIZE, ins));
    if rest.Some? {
      assert bufs + ([left[..PAGE_SIZE]] + rest.value.0) == bufs + [left[..PAGE_SIZE]] + rest.value.0;
    }
  }

  /** The receiving half: n pages off the reply stream. */
  method RecvPages(n: nat, replies: Bytes, recvs: seq<Io>) returns (rc: int, bufs: seq<Bytes>, left: Bytes)
    ensures Concat(bufs) + left == replies && (rc == 0 || rc == -1)
    ensures rc == 0 <==> Cut(n, replies, recvs).Some?
    ensures rc == 0 ==> Cut(n, replies, recvs) == Some((bufs, left))
  {
    bufs, left := [], replies;
    var ins := recvs;
    PrependNothing(bufs, Cut(n, replies, recvs), left);
    for i := 0 to n
      invariant Concat(bufs) + left == replies
      invariant Cut(n, replies, recvs) == Prepend(bufs, Cut(n - i, left, ins))
    {
      var r, buf;
      ghost var before, was := left, ins;
      r, buf, left, ins := RecvFull(left, PAGE_SIZE, ins);
      ConcatSnoc(bufs, buf);
      assert Concat(bufs) + before == Concat(bufs + [buf]) + left;
      if r < 0 {
        return -1, bufs + [buf], left;
      }
      assert before[..PAGE_SIZE] == buf && before[PAGE_SIZE..] == left;
      CutNext(bufs, n - i, before, was);
      bufs := bufs + [buf];
    }
    PrependNothing(bufs, None, left);
    rc := 0;
  }

  /** What n single calls get, one after the other. */
  function Singles(n: nat, replies: Bytes, sends: seq<Io>, recvs: seq<Io>): Option<(seq<Bytes>, Bytes)> {
    if n == 0 then Some(([], replies))
    else if !Delivers(HEADER_SIZE, sends) || |replies| < PAGE_SIZE || !Delivers(PAGE_SIZE, recvs) then None
    else
      var rest := Singles(n - 1, replies[PAGE_SIZE..], Leftover(HEADER_SIZE, sends), Leftover(PAGE_SIZE, recvs));
      Prepend([replies[..PAGE_SIZE]], rest)
  }

  lemma {:induction false} SinglesExactly(n: nat, replies: Bytes, sends: seq<Io>, recvs: seq<Io>)
    ensures Singles(n, replies, sends, recvs) ==
            if DeliversEach(n, HEADER_SIZE, sends) then Cut(n, replies, recvs) else None
    decreases n
  {
    if n == 0 {
    } else if |replies| >= PAGE_SIZE {
      SinglesExactly(n - 1, replies[PAGE_SIZE..], Leftover(HEADER_SIZE, sends), Leftover(PAGE_SIZE, recvs));
    }
  }

  lemma SinglesNext(bufs: seq<Bytes>, n: nat, buf: Bytes, left: Bytes, outs: seq<Io>, ins: seq<Io>)
    requires n > 0 && |buf| == PAGE_SIZE && Delivers(HEADER_SIZE, outs) && Delivers(PAGE_SIZE, ins)
    ensures Prepend(bufs, Singles(n, buf + left, outs, ins)) ==
            Prepend(bufs + [buf], Singles(n - 1, left, Leftover(HEADER_SIZE, outs), Leftover(PAGE_SIZE, ins)))
  {
    var rest := Singles(n - 1, left, Leftover(HEADER_SIZE, outs), Leftover(PAGE_SIZE, ins));
    assert (buf + left)[..PAGE_SIZE] == buf && (buf + left)[PAGE_SIZE..] == left;
    if rest.Some? {
      assert bufs + ([buf] + rest.value.0) == bufs + [buf] + rest.value.0;
    }
  }

  /** Single calls, one for each id, until one fails. */
  method GetEach(ids: seq<u32>, replies: Bytes, sends: seq<Io>, recvs: seq<Io>)
    returns (rc: int, bufs: seq<Bytes>, left: Bytes)
    ensures rc == 0 <==> Singles(|ids|, replies, sends, recvs).Some?
    ensures rc == 0 ==> Singles(|ids|, replies, sends, recvs) == Some((bufs, left))
  {
    bufs, left := [], replies;
    var outs, ins := sends, recvs;
    PrependNothing(bufs, Singles(|ids|, replies, sends, recvs), left);
    for i := 0 to |ids|
      invariant Singles(|ids|, replies, sends, recvs) == Prepend(bufs, Singles(|ids| - i, left, outs, ins))
    {
      var r, sent, buf, rest, outs', ins' := RpcGet(ids[i], left, outs, ins);
      if r < 0 {
        return -1, bufs, left;
      }
      SinglesNext(bufs, |ids| - i, buf, rest, outs, ins);
      bufs, left, outs, ins := bufs + [buf], rest, outs', ins';
    }
    PrependNothing(bufs, None, left);
    rc := 0;
  }

  /**
   What a client without batches would do: as many single calls. They succeed exactly when
   the batch does, and return the same pages.
   */
  method RpcGetEach(ids: seq<u32>, replies: Bytes, sends: seq<Io>, recvs: seq<Io>)
    returns (rc: int, bufs: seq<Bytes>, left: Bytes)
    ensures rc == 0 <==> Carries(|ids|, replies, sends, recvs)
    ensures rc == 0 ==> bufs == Pages(replies, |ids|) && left == replies[|ids| * PAGE_SIZE..]
  {
    SinglesExactly(|ids|, replies, sends, recvs);
    CutExactly(|ids|, replies, recvs);
    rc, bufs, left := GetEach(ids, replies, sends, recvs);
  }

  /** The connection carries a PUT out and an acknowledgement in. */
  predicate Acknowledged(replies: Bytes, sends: seq<Io>, recvs: seq<Io>) {
    && Delivers(HEADER_SIZE + PAGE_SIZE, sends)
    && |replies| >= HEADER_SIZE && Delivers(HEADER_SIZE, recvs) && replies[0] == OP_ACK
  }

  /** `dsm_rpc_put`: header and page out in one gathered write, one acknowledgement in. */
  method RpcPut(page: u32, data: Page, replies: Bytes, sends: seq<Io>, recvs: seq<Io>)
    returns (rc: int, sent: Bytes, left: Bytes)
    ensures sent <= Encode(Put(page, data))
    ensures rc == 0 ==> sent == Encode(Put(page, data)) && |replies| >= HEADER_SIZE && left == replies[HEADER_SIZE..]
    ensures rc == 0 <==> Acknowledged(replies, sends, recvs)
  {
    var iov := [MakeHeader(OP_PUT_PAGE, page), data];
    assert iov[1..] == [data] && Concat([data]) == data + [] == data;
    assert Concat(iov) == Encode(Put(page, data));
    var r, outs, ins, ack;
    r, sent, outs := SendVectors(iov, sends);
    if r < 0 {
      return -1, sent, replies;
    }
    r, ack, left, ins := RecvFull(replies, HEADER_SIZE, recvs);
    if r < 0 || ack[0] != OP_ACK {
      assert r >= 0 ==> ack[0] == replies[0];
      return -1, sent, left;
    }
    assert ack[0] == replies[0];
    rc := 0;
  }

  lemma {:induction false} ConcatSnoc(bufs: seq<Bytes>, b: Bytes)
    ensures Concat(bufs + [b]) == Concat(bufs) + b
  {
    if bufs == [] {
      assert [b][1..] == [];
    } else {
      ConcatSnoc(bufs[1..], b);
      assert (bufs + [b])[1..] == bufs[1..] + [b];
    }
  }

  // ---------- A batch is as good as single calls ----------

  /** The page a single GET of ids[i] is answered with. */
  function SingleReply(sv: Server, ids: seq<u32>, fwds: seq<Forward>, i: nat): Bytes
    requires i < |ids|
  {
    ServeAll(sv, [Get(ids[i])], [ForwardOf(fwds, i)]).1
  }

  function SingleReplies(sv: Server, ids: seq<u32>, fwds: seq<Forward>): seq<Bytes> {
    seq(|ids|, i requires 0 <= i < |ids| => SingleReply(sv, ids, fwds, i))
  }

  lemma SingleGet(sv: Server, page: u32, fwd: Forward)
    ensures ServeAll(sv, [Get(page)], [fwd]) == (sv, Handle(sv, Get(page), fwd).1.value, true)
  {
    assert [Get(page)][..0] == [];
    var reply := Handle(sv, Get(page), fwd).1.value;
    assert [] + reply == reply;
  }

  /** The server answers a pipelined batch with the pages it would give to single calls, in order. */
  lemma {:induction false} BatchReplies(sv: Server, ids: seq<u32>, fwds: seq<Forward>)
    ensures ServeAll(sv, Gets(ids), fwds) == (sv, Concat(SingleReplies(sv, ids, fwds)), true)
  {
    if ids == [] {
      assert Gets(ids) == [] && SingleReplies(sv, ids, fwds) == [];
    } else {
      var k := |ids| - 1;
      var rs, before, reply := Gets(ids), SingleReplies(sv, ids[..k], fwds), SingleReply(sv, ids, fwds, k);
      BatchReplies(sv, ids[..k], fwds);
      assert rs[..k] == Gets(ids[..k]) && rs[..k + 1] == rs;
      ServeNext(sv, rs, fwds, k);
      SingleGet(sv, ids[k], ForwardOf(fwds, k));
      assert SingleReplies(sv, ids, fwds) == before + [reply];
      ConcatSnoc(before, reply);
    }
  }

  lemma {:induction false} PagesOfConcat(bufs: seq<Bytes>)
    requires forall i :: 0 <= i < |bufs| ==> |bufs[i]| == PAGE_SIZE
    ensures |Concat(bufs)| == |bufs| * PAGE_SIZE && Pages(Concat(bufs), |bufs|) == bufs
  {
    if bufs == [] {
    } else {
      PagesOfConcat(bufs[1..]);
      var all := Concat(bufs);
      assert all[..PAGE_SIZE] == bufs[0] && all[PAGE_SIZE..] == Concat(bufs[1..]);
      assert bufs == [bufs[0]] + bufs[1..];
    }
  }

  /**
   A batch is as good as single calls: against the server's loop over the very bytes it
   sends, it succeeds whenever the transfers get through, returns for each id the page a
   single call is answered with, and leaves nothing behind in the stream.
   */
  lemma BatchEqualsSingles(sv: Server, ids: seq<u32>, fwds: seq<Forward>, sends: seq<Io>, recvs: seq<Io>)
    ensures var replies := ServeAll(sv, Requests(EncodeAll(Gets(ids))), fwds).1;
            && |replies| == |ids| * PAGE_SIZE
            && Pages(replies, |ids|) == SingleReplies(sv, ids, fwds)
            && (Carries(|ids|, replies, sends, recvs) <==>
                DeliversEach(|ids|, HEADER_SIZE, sends) && DeliversEach(|ids|, PAGE_SIZE, recvs))
  {
    RequestsRoundTrip(Gets(ids));
    BatchReplies(sv, ids, fwds);
    forall i | 0 <= i < |ids|
      ensures |SingleReply(sv, ids, fwds, i)| == PAGE_SIZE
    {
      SingleGet(sv, ids[i], ForwardOf(fwds, i));
    }
    PagesOfConcat(SingleReplies(sv, ids, fwds));
  }

  /**
   A PUT over bytes: against the server's loop a client sees it succeed exactly when the
   transfers get through and the page was stored there or its forward was accepted.
   */
  lemma PutMeansStored(sv: Server, page: u32, data: Page, fwds: seq<Forward>, sends: seq<Io>, recvs: seq<Io>)
    ensures var (st, replies, _) := ServeAll(sv, Requests(Encode(Put(page, data))), fwds);
            && (Acknowledged(replies, sends, recvs) <==>
                && Delivers(HEADER_SIZE + PAGE_SIZE, sends) && Delivers(HEADER_SIZE, recvs)
                && (Serves(sv, page) || (sv.range.Some? && ForwardOf(fwds, 0).Accepted?)))
            && st == if Serves(sv, page) then sv.(storage := sv.storage[page := data]) else sv
  {
    var put := Put(page, data);
    assert [put][1..] == [] && EncodeAll([put]) == Encode(put) + [] == Encode(put);
    RequestsRoundTrip([put]);
    assert [put][..0] == [] && [put][..1] == [put];
    ServeNext(sv, [put], fwds, 0);
    HeaderLayout(OP_ACK, page);
  }

  // ---------- What a whole connection sends ----------

  lemma ServeSnoc(sv: Server, rs: seq<Request>, r: Request, fwds: seq<Forward>)
    ensures var (st, out, alive) := ServeAll(sv, rs, fwds);
            var (st', reply) := Handle(st, r, ForwardOf(fwds, |rs|));
            ServeAll(sv, rs + [r], fwds) ==
            if !alive then (st, out, false)
            else if reply.None? then (st', out, false)
            else (st', out + reply.value, true)
  {
    assert (rs + [r])[..|rs|] == rs;
  }

  /** The server keeps the page itself: it has storage for it and, in a cluster, owns it. */
  predicate Keeps(sv: Server, page: u32) {
    page < |sv.storage| && (sv.range.Some? ==> sv.range.value.0 <= page < sv.range.value.1)
  }

  /**
   The reply a request has coming after the requests `rs`, or none when the connection is to
   be given up. A GET: the page last put there if the server keeps it, else what its forward
   fetched, else zeros. A PUT of a page it keeps, or whose forward was accepted: an
   acknowledgement. Any other code: nothing.
   */
  function Due(sv: Server, rs: seq<Request>, r: Request, fwd: Forward): Option<Bytes> {
    if r.Get? then
      Some(if Keeps(sv, r.page) then LastPut(rs, r.page, sv.storage[r.page])
           else if sv.range.Some? && fwd.Fetched? then fwd.page
           else ZERO_PAGE)
    else if r.Put? then
      if Keeps(sv, r.page) || (sv.range.Some? && fwd.Accepted?) then Some([3, 0, 0, 0] + Le32(r.page)) else None
    else Some([])
  }

  /** The bytes that follow a request on a living connection, with or without a cluster, are those it has coming. */
  lemma RepliesNext(sv: Server, rs: seq<Request>, r: Request, fwds: seq<Forward>)
    requires ServeAll(sv, rs, fwds).2
    ensures var due := Due(sv, rs, r, ForwardOf(fwds, |rs|));
            && ServeAll(sv, rs + [r], fwds).2 == due.Some?
            && ServeAll(sv, rs + [r], fwds).1 ==
               if due.Some? then ServeAll(sv, rs, fwds).1 + due.value else ServeAll(sv, rs, fwds).1
  {
    ServeSnoc(sv, rs, r, fwds);
    SameServer(sv, rs, fwds);
    if Keeps(sv, r.page) { ServedPageIsLastPut(sv, rs, fwds, r.page); }
    if r.Other? {
      assert ServeAll(sv, rs, fwds).1 + [] == ServeAll(sv, rs, fwds).1;
    }
  }

  lemma {:induction false} SameServer(sv: Server, rs: seq<Request>, fwds: seq<Forward>)
    ensures var st := ServeAll(sv, rs, fwds).0; st.range == sv.range && |st.storage| == |sv.storage|
  {
    if rs == [] {
    } else {
      SameServer(sv, rs[..|rs| - 1], fwds);
    }
  }

  /** Without a cluster a server answers a GET with the page last put, and beyond its storage with zeros. */
  lemma LoneServerReplies(storage: seq<Page>, rs: seq<Request>, fwds: seq<Forward>, page: u32)
    requires ServeAll(Server(storage, None), rs, fwds).2
    ensures var sv := Server(storage, None);
            ServeAll(sv, rs + [Get(page)], fwds).1 ==
            ServeAll(sv, rs, fwds).1 + if page < |storage| then LastPut(rs, page, storage[page]) else ZERO_PAGE
  {
    RepliesNext(Server(storage, None), rs, Get(page), fwds);
  }

  /** The request is one that does not end the connection. */
  predicate Goes(sv: Server, r: Request, fwd: Forward) {
    r.Put? ==> Keeps(sv, r.page) || (sv.range.Some? && fwd.Accepted?)
  }

  /** A connection is given up exactly at a PUT that can be neither stored nor forwarded. */
  lemma {:induction false} AliveExactly(sv: Server, rs: seq<Request>, fwds: seq<Forward>)
    ensures ServeAll(sv, rs, fwds).2 <==> forall i :: 0 <= i < |rs| ==> Goes(sv, rs[i], ForwardOf(fwds, i))
  {
    if rs == [] {
    } else {
      var k := |rs| - 1;
      AliveExactly(sv, rs[..k], fwds);
      AliveNext(sv, rs, fwds);
      assert forall i :: 0 <= i < k ==> rs[..k][i] == rs[i];
    }
  }

  lemma AliveNext(sv: Server, rs: seq<Request>, fwds: seq<Forward>)
    requires rs != []
    ensures var k := |rs| - 1;
            ServeAll(sv, rs, fwds).2 <==> ServeAll(sv, rs[..k], fwds).2 && Goes(sv, rs[k], ForwardOf(fwds, k))
  {
    var k := |rs| - 1;
    assert rs[..k] + [rs[k]] == rs;
    ServeSnoc(sv, rs[..k], rs[k], fwds);
    if ServeAll(sv, rs[..k], fwds).2 { RepliesNext(sv, rs[..k], rs[k], fwds); }
  }

  /** The last page put in a list of requests, or d if none. */
  function LastPut(rs: seq<Request>, page: u32, d: Page): Page {
    if rs == [] then d
    else
      var r := rs[|rs| - 1];
      if r.Put? && r.page == page then r.data else LastPut(rs[..|rs| - 1], page, d)
  }

  /** On a connection that lives, a page the server holds is what was last put there, whatever else was asked. */
  lemma {:induction false} ServedPageIsLastPut(sv: Server, rs: seq<Request>, fwds: seq<Forward>, page: u32)
    requires Serves(sv, page)
    ensures var (st, _, alive) := ServeAll(sv, rs, fwds);
            && st.range == sv.range && |st.storage| == |sv.storage|
            && (alive ==> st.storage[page] == LastPut(rs, page, sv.storage[page]))
  {
    if rs == [] {
    } else {
      ServedPageIsLastPut(sv, rs[..|rs| - 1], fwds, page);
    }
  }
}
