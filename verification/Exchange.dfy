/** Two transmission control blocks joined by the network: delivering a 32-bit packet is the delivery
    step of the two-endpoint runs. */
module Exchange {
  import opened Serial
  import opened Ring
  import opened Reassembly
  import opened Endpoint
  import opened EndpointInvariant
  import opened Run
  import opened Connection
  import opened ReceivePath
  import opened Congestion
  import opened Tcb
  import Wire

  /** The two blocks share no state. */
  ghost predicate Apart(me: Tcb, peer: Tcb) {
    && me != peer && me.tx != peer.tx && me.rx != peer.rx && me.cong != peer.cong
    && me.tm != peer.tm && me.tm.est != peer.tm.est
    && me.rx.recvBuf != peer.rx.recvBuf && me.rx.recvBuf != peer.tx.sendBuf
  }

  /** Any packet the peer has handed to the network, now or earlier, arrives: the block takes exactly
      the step the endpoint functions take on the segment it carries, and both directions stay linked. */
  method Deliver(me: Tcb, peer: Tcb, i: nat, echo: Option<u32>, now: nat, fired: bool)
    requires me.Valid() && peer.Valid() && Apart(me, peer)
    requires Linked(me.View(), peer.View()) && Linked(peer.View(), me.View())
    requires i < |peer.sent|
    modifies me, me.tx, me.tm, me.tm.est, me.cong, me.rx, me.rx.recvBuf
    ensures me.Valid() && peer.Valid() && peer.View() == old(peer.View()) && peer.sent == old(peer.sent)
    ensures var st := Arrival(old(peer.View().hist.out[i]), SampleOf(echo, now), fired);
      && Offered(old(me.View()), old(peer.View()), st)
      && me.View() == React(old(me.View()), st)
    ensures Linked(me.View(), peer.View()) && Linked(peer.View(), me.View())
  {
    assert Ready(me.View());
    hide OnSegment, Inv, Linked, Decodable, Tcb.Coherent;
    ghost var e, f := me.View(), peer.View();
    SentDecodes(me, peer, i);
    var p := peer.sent[i];
    ghost var st := Arrival(f.hist.out[i], SampleOf(echo, now), fired);
    me.HandlePacket(p, echo, now, fired);
    ReactLinked(e, f, st);
  }

  /** Every packet the peer has sent fits a segment and decodes to the segment it carries. */
  lemma {:induction false} SentDecodes(me: Tcb, peer: Tcb, i: nat)
    requires me.Valid() && peer.Valid()
    requires Linked(me.View(), peer.View()) && Linked(peer.View(), me.View())
    requires i < |peer.sent|
    ensures i < |peer.hist.out| && me.Decoded(peer.sent[i]) == peer.hist.out[i]
    ensures |peer.sent[i].payload| <= MSS
    ensures me.Decoded(peer.sent[i]).pos + |peer.sent[i].payload| < me.rx.view.nxt + TWO31
  {
    var e, f := me.View(), peer.View();
    LinkedReach(e, f, i);
    SentFits(f, i);
    hide Inv, Linked, Holds, Encodes, SortedFrom, Count, InReach;
    PacketDecodes(peer.sent[i], f.hist.out[i], e.rcv.nxt);
  }

  // ---------- in bytes ----------

  /** TH_ACK, the flags of every segment in ESTABLISHED. */
  const ACK_FLAG: u8 := 16

  /** What utcp_send_segment writes for a packet; the scale is not written without SYN. */
  function Written(p: Packet, sport: u16, dport: u16, tsval: u32, tsecr: u32): Bytes {
    Wire.Serialised(Wire.Header(sport, dport, p.num, p.ack, ACK_FLAG, p.win), Wire.Content(0, tsval, tsecr, p.payload))
  }

  /** What the listening thread reads from the first `n` bytes of its buffer. */
  function Parsed(b: Bytes, n: nat): Packet
    requires Wire.Received(b, n)
  {
    var h := Wire.ParsedHeader(b);
    Packet(h.num, h.ack, h.win, Wire.ParsedPayload(b, n))
  }

  /** A packet survives the wire, whatever an earlier one left behind it in the receive buffer. */
  lemma {:induction false} PacketRoundTrip(p: Packet, sport: u16, dport: u16, tsval: u32, tsecr: u32, b: Bytes)
    requires |p.payload| <= MSS
    requires var w := Written(p, sport, dport, tsval, tsecr); |b| == Wire.BUFFER && |w| <= |b| && b[..|w|] == w
    ensures var n := |Written(p, sport, dport, tsval, tsecr)|;
      && Parsed(b, n) == p && n >= Wire.HEADER
      && Wire.FindEcho(b, Wire.HEADER, Wire.OptionsEnd(b)) == Some(tsecr)
  {
    var h := Wire.Header(sport, dport, p.num, p.ack, ACK_FLAG, p.win);
    var c := Wire.Content(0, tsval, tsecr, p.payload);
    Wire.RoundTrip(h, c, b, |Wire.Serialised(h, c)|);
  }

  /** The listening thread: a datagram of `n` bytes is in the buffer, is parsed and handled. */
  method ReceiveBytes(me: Tcb, b: Bytes, n: nat, now: nat, fired: bool)
    requires me.Valid() && Wire.Received(b, n) && n >= Wire.HEADER
    requires me.Decoded(Parsed(b, n)).pos + |Parsed(b, n).payload| < me.rx.view.nxt + TWO31
    modifies me, me.tx, me.tm, me.tm.est, me.cong, me.rx, me.rx.recvBuf
    ensures me.Valid()
    ensures var echo := Wire.FindEcho(b, Wire.HEADER, Wire.OptionsEnd(b));
      me.View() == OnSegment(old(me.View()), old(me.Decoded(Parsed(b, n))), SampleOf(echo, now), fired)
  {
    hide OnSegment, Inv, Wire.FindEcho;
    var r := Wire.Deserialise(b, n);
    var echo := Wire.ExtractEcho(b);
    var (h, payload) := r.value;
    me.HandlePacket(Packet(h.num, h.ack, h.win, payload), echo, now, fired);
  }

  /** A packet is written into a segment buffer, carried by one datagram into a receive buffer with
      leftovers, parsed and handled. */
  method CarryPacket(me: Tcb, p: Packet, sport: u16, dport: u16, tsval: u32, tsecr: u32,
                     leftovers: Bytes, now: nat, fired: bool)
    requires me.Valid() && |p.payload| <= MSS && |leftovers| == Wire.BUFFER
    requires me.Decoded(p).pos + |p.payload| < me.rx.view.nxt + TWO31
    modifies me, me.tx, me.tm, me.tm.est, me.cong, me.rx, me.rx.recvBuf
    ensures me.Valid()
    ensures me.View() == OnSegment(old(me.View()), old(me.Decoded(p)), SampleOf(Some(tsecr), now), fired)
  {
    hide OnSegment, Inv, Tcb.Coherent, Wire.Serialised, Wire.FindEcho, Wire.ParsedPayload;
    var h := Wire.Header(sport, dport, p.num, p.ack, ACK_FLAG, p.win);
    var seg := Wire.Build(h, Wire.Content(0, tsval, tsecr, p.payload));
    WrittenFits(p, sport, dport, tsval, tsecr);
    var n := seg.Length;
    var b := seg[..] + leftovers[n..];
    PacketRoundTrip(p, sport, dport, tsval, tsecr, b);
    ReceiveBytes(me, b, n, now, fired);
  }

  /** From one block to the other as bytes: that is the delivery step of the two-endpoint runs, with the
      echoed timestamp as the RTT sample. */
  method DeliverBytes(me: Tcb, peer: Tcb, i: nat, sport: u16, dport: u16, tsval: u32, tsecr: u32,
                      leftovers: Bytes, now: nat, fired: bool)
    requires me.Valid() && peer.Valid() && Apart(me, peer)
    requires Linked(me.View(), peer.View()) && Linked(peer.View(), me.View())
    requires i < |peer.sent| && |leftovers| == Wire.BUFFER
    modifies me, me.tx, me.tm, me.tm.est, me.cong, me.rx, me.rx.recvBuf
    ensures me.Valid() && peer.Valid() && peer.View() == old(peer.View()) && peer.sent == old(peer.sent)
    ensures var st := Arrival(old(peer.View().hist.out[i]), SampleOf(Some(tsecr), now), fired);
      && Offered(old(me.View()), old(peer.View()), st)
      && me.View() == React(old(me.View()), st)
    ensures Linked(me.View(), peer.View()) && Linked(peer.View(), me.View())
  {
    assert Ready(me.View());
    hide OnSegment, Inv, Linked, Decodable, Tcb.Coherent;
    ghost var e, f := me.View(), peer.View();
    SentDecodes(me, peer, i);
    ghost var st := Arrival(f.hist.out[i], SampleOf(Some(tsecr), now), fired);
    CarryPacket(me, peer.sent[i], sport, dport, tsval, tsecr, leftovers, now, fired);
    ReactLinked(e, f, st);
  }

  lemma {:induction false} SentFits(e: Endpoint, i: nat)
    requires Inv(e) && i < |e.hist.out|
    ensures |e.hist.out[i].payload| <= MSS
  {
    assert Genuine(e.hist.out[i], e.snd.stream, e.rcv.nxt);
  }

  lemma {:induction false} WrittenFits(p: Packet, sport: u16, dport: u16, tsval: u32, tsecr: u32)
    requires |p.payload| <= MSS
    ensures |Written(p, sport, dport, tsval, tsecr)| <= Wire.BUFFER
  {
  }
}
