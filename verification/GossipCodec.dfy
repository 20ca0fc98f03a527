/**
 The gossip datagram at byte level: packed little-endian structures, a 36-byte header
 and 40 bytes per node entry.
 */
module GossipCodec {
  import opened Base
  import opened Words

  const NODE_ID_LEN: nat := 16
  const GOSSIP_MAGIC: u32 := 0x44534D47
  const GOSSIP_MSG_MAX_NODES: nat := 16
  const HEADER_LEN: nat := 36
  const NODE_LEN: nat := 40

  const PING: byte := 1
  const PONG: byte := 2
  const JOIN: byte := 3

  type NodeId = s: Bytes | |s| == NODE_ID_LEN witness Zeros(NODE_ID_LEN)

  type Pad = s: Bytes | |s| == 3 witness Zeros(3)

  /** `gossip_node_info_t`. */
  datatype WireNode = WireNode(
    id: NodeId, addr: u32, clientPort: u16, clusterPort: u16,
    rangeStart: u32, rangeEnd: u32, incarnation: u32, state: byte, pad: Pad)

  /** `gossip_msg_t`; the node count of the header is the number of entries. */
  datatype Message = Message(
    kind: byte, clientPort: u16, sender: NodeId,
    incarnation: u32, rangeStart: u32, rangeEnd: u32, nodes: seq<WireNode>)

  // ---------- One node entry ----------

  function EncodeNode(n: WireNode): (b: Bytes)
    ensures |b| == NODE_LEN
  {
    n.id + Le32(n.addr) + Le16(n.clientPort) + Le16(n.clusterPort)
    + Le32(n.rangeStart) + Le32(n.rangeEnd) + Le32(n.incarnation) + [n.state] + n.pad
  }

  function DecodeNode(b: Bytes): WireNode
    requires |b| == NODE_LEN
  {
    WireNode(b[..16], Un32(b[16..20]), Un16(b[20..22]), Un16(b[22..24]),
             Un32(b[24..28]), Un32(b[28..32]), Un32(b[32..36]), b[36], b[37..40])
  }

  /** Where each field of `gossip_node_info_t` lies in its 40 bytes. */
  lemma NodeFields(n: WireNode)
    ensures var b := EncodeNode(n);
            && b[..16] == n.id && Un32(b[16..20]) == n.addr
            && Un16(b[20..22]) == n.clientPort && Un16(b[22..24]) == n.clusterPort
            && Un32(b[24..28]) == n.rangeStart && Un32(b[28..32]) == n.rangeEnd
            && Un32(b[32..36]) == n.incarnation && b[36] == n.state && b[37..40] == n.pad
  {
    var b := EncodeNode(n);
    assert b[16..20] == Le32(n.addr);
    assert b[20..22] == Le16(n.clientPort);
    assert b[22..24] == Le16(n.clusterPort);
    assert b[24..28] == Le32(n.rangeStart);
    assert b[28..32] == Le32(n.rangeEnd);
    assert b[32..36] == Le32(n.incarnation);
    Words32(n.addr);
    Words16(n.clientPort, [0, 0]);
    Words16(n.clusterPort, [0, 0]);
    Words32(n.rangeStart);
    Words32(n.rangeEnd);
    Words32(n.incarnation);
  }

  lemma NodeRoundTrip(n: WireNode)
    ensures DecodeNode(EncodeNode(n)) == n
  {
    NodeFields(n);
  }

  lemma NodeBytes(b: Bytes)
    requires |b| == NODE_LEN
    ensures EncodeNode(DecodeNode(b)) == b
  {
    Bytes32(b[16..20]);
    Words16(0, b[20..22]);
    Words16(0, b[22..24]);
    Bytes32(b[24..28]);
    Bytes32(b[28..32]);
    Bytes32(b[32..36]);
    assert b == b[..16] + b[16..20] + b[20..22] + b[22..24] + b[24..28] + b[28..32] + b[32..36] + [b[36]] + b[37..40];
  }

  // ---------- The node list ----------

  function EncodeNodes(ns: seq<WireNode>): (b: Bytes)
    ensures |b| == NODE_LEN * |ns|
  {
    if ns == [] then [] else EncodeNode(ns[0]) + EncodeNodes(ns[1..])
  }

  function DecodeNodes(b: Bytes, n: nat): (ns: seq<WireNode>)
    requires |b| == NODE_LEN * n
    ensures |ns| == n
    decreases n
  {
    if n == 0 then [] else [DecodeNode(b[..NODE_LEN])] + DecodeNodes(b[NODE_LEN..], n - 1)
  }

  lemma {:induction false} NodesRoundTrip(ns: seq<WireNode>)
    ensures DecodeNodes(EncodeNodes(ns), |ns|) == ns
  {
    if ns == [] {
    } else {
      NodesRoundTrip(ns[1..]);
      NodeRoundTrip(ns[0]);
      var b := EncodeNodes(ns);
      assert b[..NODE_LEN] == EncodeNode(ns[0]) && b[NODE_LEN..] == EncodeNodes(ns[1..]);
    }
  }

  lemma {:induction false} NodesBytes(b: Bytes, n: nat)
    requires |b| == NODE_LEN * n
    ensures EncodeNodes(DecodeNodes(b, n)) == b
    decreases n
  {
    if n == 0 {
    } else {
      NodesBytes(b[NODE_LEN..], n - 1);
      NodeBytes(b[..NODE_LEN]);
      var ns := DecodeNodes(b, n);
      assert ns[1..] == DecodeNodes(b[NODE_LEN..], n - 1);
      assert b == b[..NODE_LEN] + b[NODE_LEN..];
    }
  }

  // ---------- Whole messages ----------

  function EncodeHeader(m: Message): (b: Bytes)
    requires |m.nodes| < 256
    ensures |b| == HEADER_LEN
  {
    Le32(GOSSIP_MAGIC) + [m.kind] + [|m.nodes|] + Le16(m.clientPort) + m.sender
    + Le32(m.incarnation) + Le32(m.rangeStart) + Le32(m.rangeEnd)
  }

  /** The bytes `send_msg` puts on the wire. */
  function Encode(m: Message): (b: Bytes)
    requires |m.nodes| <= GOSSIP_MSG_MAX_NODES
    ensures |b| == HEADER_LEN + NODE_LEN * |m.nodes|
  {
    EncodeHeader(m) + EncodeNodes(m.nodes)
  }

  /** `gossip_parse`. */
  function Parse(b: Bytes): (r: Option<Message>)
    ensures r.Some? ==> |r.value.nodes| <= GOSSIP_MSG_MAX_NODES
  {
    if |b| < HEADER_LEN || Un32(b[0..4]) != GOSSIP_MAGIC || b[5] > GOSSIP_MSG_MAX_NODES
       || |b| < HEADER_LEN + b[5] * NODE_LEN
    then None
    else
      var body := b[HEADER_LEN..HEADER_LEN + b[5] * NODE_LEN];
      Some(Message(b[4], Un16(b[6..8]), b[8..24], Un32(b[24..28]), Un32(b[28..32]), Un32(b[32..36]),
                   DecodeNodes(body, b[5])))
  }

  /** Parsing what was sent returns it, also when the receive buffer holds trailing bytes. */
  lemma ParseEncode(m: Message, junk: Bytes)
    requires |m.nodes| <= GOSSIP_MSG_MAX_NODES
    ensures Parse(Encode(m) + junk) == Some(m)
  {
    var b := Encode(m) + junk;
    HeaderFields(m, EncodeNodes(m.nodes) + junk);
    assert b == EncodeHeader(m) + (EncodeNodes(m.nodes) + junk);
    assert b[HEADER_LEN..HEADER_LEN + |m.nodes| * NODE_LEN] == EncodeNodes(m.nodes);
    NodesRoundTrip(m.nodes);
  }

  /** Where each field of `gossip_header_t` lies in its 36 bytes. */
  lemma HeaderFields(m: Message, rest: Bytes)
    requires |m.nodes| <= GOSSIP_MSG_MAX_NODES
    ensures var b := EncodeHeader(m) + rest;
            && Un32(b[0..4]) == GOSSIP_MAGIC && b[4] == m.kind && b[5] == |m.nodes|
            && Un16(b[6..8]) == m.clientPort && b[8..24] == m.sender
            && Un32(b[24..28]) == m.incarnation && Un32(b[28..32]) == m.rangeStart && Un32(b[32..36]) == m.rangeEnd
  {
    var b := EncodeHeader(m) + rest;
    assert b[0..4] == Le32(GOSSIP_MAGIC);
    assert b[6..8] == Le16(m.clientPort);
    assert b[8..24] == m.sender;
    assert b[24..28] == Le32(m.incarnation);
    assert b[28..32] == Le32(m.rangeStart);
    assert b[32..36] == Le32(m.rangeEnd);
    Words32(GOSSIP_MAGIC);
    Words16(m.clientPort, [0, 0]);
    Words32(m.incarnation);
    Words32(m.rangeStart);
    Words32(m.rangeEnd);
  }

  /** Re-encoding any accepted buffer gives back the bytes the message occupies. */
  lemma EncodeParse(b: Bytes)
    requires Parse(b).Some?
    ensures var m := Parse(b).value;
            HEADER_LEN + NODE_LEN * |m.nodes| <= |b| && Encode(m) == b[..HEADER_LEN + NODE_LEN * |m.nodes|]
  {
    var m := Parse(b).value;
    BodyBytes(b, m);
    HeaderBytes(b, m);
    var n := HEADER_LEN + NODE_LEN * |m.nodes|;
    assert b[..n] == b[..HEADER_LEN] + b[HEADER_LEN..n];
  }

  lemma BodyBytes(b: Bytes, m: Message)
    requires Parse(b) == Some(m)
    ensures HEADER_LEN + NODE_LEN * |m.nodes| <= |b|
    ensures EncodeNodes(m.nodes) == b[HEADER_LEN..HEADER_LEN + NODE_LEN * |m.nodes|]
  {
    NodesBytes(b[HEADER_LEN..HEADER_LEN + b[5] * NODE_LEN], b[5]);
  }

  lemma HeaderBytes(b: Bytes, m: Message)
    requires Parse(b) == Some(m)
    ensures EncodeHeader(m) == b[..HEADER_LEN]
  {
    Bytes32(b[0..4]);
    Words16(0, b[6..8]);
    Bytes32(b[24..28]);
    Bytes32(b[28..32]);
    Bytes32(b[32..36]);
    assert b[..HEADER_LEN]
        == b[0..4] + [b[4]] + [b[5]] + b[6..8] + b[8..24] + b[24..28] + b[28..32] + b[32..36];
  }

  /** A datagram cut anywhere short of its declared length is rejected. */
  lemma TruncatedRejected(m: Message, k: nat)
    requires |m.nodes| <= GOSSIP_MSG_MAX_NODES && k < |Encode(m)|
    ensures Parse(Encode(m)[..k]).None?
  {
    if k >= HEADER_LEN {
      var b := Encode(m)[..k];
      HeaderFields(m, EncodeNodes(m.nodes));
      assert b[5] == Encode(m)[5];
    }
  }
}
