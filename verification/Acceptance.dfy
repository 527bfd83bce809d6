/** Between two endpoints: how far the peer can have accepted, how far the sender may send, and which
    segments the peer is bound to accept, over whole runs. */
module Acceptance {
  import opened Serial
  import opened Ring
  import opened Reassembly
  import opened WindowScale
  import opened Endpoint
  import opened EndpointInvariant
  import opened Run
  import opened Karn
  import opened Connection
  import opened FlowControl

  // ---------- what has been sent at all ----------

  /** The end of everything sent: snd_max, or the furthest fast retransmission. */
  function Furthest(max: int, rexmits: seq<Resent>): int {
    if rexmits == [] then max
    else Max(Furthest(max, rexmits[..|rexmits| - 1]), rexmits[|rexmits| - 1].hi)
  }

  lemma {:induction false} FurthestCovers(max: int, rexmits: seq<Resent>)
    ensures Furthest(max, rexmits) >= max
    ensures forall r :: r in rexmits ==> r.hi <= Furthest(max, rexmits)
  {
    if rexmits != [] {
      var n := |rexmits| - 1;
      FurthestCovers(max, rexmits[..n]);
      assert rexmits == rexmits[..n] + [rexmits[n]];
    }
  }

  lemma {:induction false} FurthestLeast(max: int, rexmits: seq<Resent>, bound: int)
    requires max <= bound && forall r :: r in rexmits ==> r.hi <= bound
    ensures Furthest(max, rexmits) <= bound
  {
    if rexmits != [] {
      FurthestLeast(max, rexmits[..|rexmits| - 1], bound);
    }
  }

  lemma {:induction false} FurthestGrows(e: Endpoint, e': Endpoint)
    requires Grows(e, e')
    ensures Furthest(e.snd.max, e.hist.rexmits) <= Furthest(e'.snd.max, e'.hist.rexmits)
  {
    var f' := Furthest(e'.snd.max, e'.hist.rexmits);
    FurthestCovers(e'.snd.max, e'.hist.rexmits);
    forall r | r in e.hist.rexmits
      ensures r.hi <= f'
    {
      assert r in e'.hist.rexmits;
    }
    FurthestLeast(e.snd.max, e.hist.rexmits, f');
  }

  lemma {:induction false} CopiesHas(out: seq<Segment>, i: nat, p: int)
    requires i < |out| && Covers(out[i], p)
    ensures Copies(out, p) >= 1
  {
    if i < |out| - 1 {
      CopiesHas(out[..|out| - 1], i, p);
    }
  }

  /** A byte at or past snd_max that has been sent was sent by a fast retransmission. */
  lemma {:induction false} PastMaxIsResent(e: Endpoint, i: nat, p: int)
    requires Counted(e) && i < |e.hist.out| && Covers(e.hist.out[i], p) && p >= e.snd.max
    ensures exists r :: r in e.hist.rexmits && Again(r, p)
  {
    CopiesHas(e.hist.out, i, p);
    RecopiesNone(e.hist.rexmits, p);
    assert Copies(e.hist.out, p) == Recopies(e.hist.rexmits, p);
  }

  lemma {:induction false} SegmentEnds(e: Endpoint, i: nat)
    requires Counted(e) && i < |e.hist.out| && e.hist.out[i].payload != []
    ensures e.hist.out[i].pos + |e.hist.out[i].payload| <= Furthest(e.snd.max, e.hist.rexmits)
  {
    var p := e.hist.out[i].pos + |e.hist.out[i].payload| - 1;
    FurthestCovers(e.snd.max, e.hist.rexmits);
    if p >= e.snd.max {
      PastMaxIsResent(e, i, p);
    }
  }

  // ---------- what the peer can have accepted ----------

  /** The part of the stream that has been sent. */
  function Sent(e: Endpoint): (sent: Bytes)
    requires 0 <= e.snd.max
    ensures sent <= e.snd.stream && |sent| == Min(|e.snd.stream|, Furthest(e.snd.max, e.hist.rexmits))
  {
    FurthestCovers(e.snd.max, e.hist.rexmits);
    e.snd.stream[..Min(|e.snd.stream|, Furthest(e.snd.max, e.hist.rexmits))]
  }

  /** The receiver holds nothing but bytes that have been sent. */
  ghost predicate HoldsSent(me: Endpoint, peer: Endpoint) {
    0 <= me.snd.max && Faithful(peer.rcv, Sent(me))
  }

  /** More may have been sent since. */
  lemma {:induction false} HoldsSentGrows(me: Endpoint, me': Endpoint, peer: Endpoint)
    requires HoldsSent(me, peer) && Grows(me, me')
    ensures HoldsSent(me', peer)
  {
    FurthestGrows(me, me');
    var sent, sent' := Sent(me), Sent(me');
    assert sent' == sent + sent'[|sent|..];
    FaithfulExtend(peer.rcv, sent, sent'[|sent|..]);
  }

  /** The receive side after a stimulus. */
  function RcvAfter(e: Endpoint, st: Stimulus): Receive {
    match st
    case Arrival(s, _, _) => NextRcv(e, s)
    case AppRead(len) => TakeUnread(e.rcv, len).0
    case _ => e.rcv
  }

  lemma {:induction false} RcvFollows(e: Endpoint, st: Stimulus)
    requires Inv(e) && Possible(e, st)
    ensures React(e, st).rcv == RcvAfter(e, st)
  {
    hide OnSegment, OnSend, OnRead, OnTick;
    match st
    case Arrival(s, sample, fired) =>
      OnSegmentKeeps(e, s, sample, fired);
    case AppSend(data) =>
      OnSendKeeps(e, data);
    case AppRead(len) =>
      OnReadKeeps(e, len);
    case Clock(fired) =>
      OnTickKeeps(e, fired);
  }

  lemma {:induction false} HoldsSentReceives(me: Endpoint, peer: Endpoint, st: Stimulus)
    requires Inv(me) && Counted(me) && Inv(peer) && HoldsSent(me, peer) && Offered(peer, me, st)
    ensures HoldsSent(me, React(peer, st))
  {
    hide React, Sent;
    RcvFollows(peer, st);
    match st
    case Arrival(s, _, _) =>
      if s.payload != [] {
        var i :| 0 <= i < |me.hist.out| && s == me.hist.out[i];
        SentSlice(me, i);
        ArriveFaithful(peer.rcv, s.pos, s.payload, Sent(me));
      }
    case AppRead(len) =>
      TakeFaithful(peer.rcv, len, Sent(me));
    case _ =>
  }

  lemma {:induction false} SentSlice(e: Endpoint, i: nat)
    requires Inv(e) && Counted(e) && i < |e.hist.out| && e.hist.out[i].payload != []
    ensures var s := e.hist.out[i];
      0 <= s.pos && s.pos + |s.payload| <= |Sent(e)| && s.payload == Sent(e)[s.pos..s.pos + |s.payload|]
  {
    SegmentEnds(e, i);
    assert Genuine(e.hist.out[i], e.snd.stream, e.rcv.nxt);
  }

  /** In every state of every run each side holds only what the other has sent, and its RTT bookkeeping
      is sound. */
  lemma {:induction false} RunHoldsSent(run: seq<Connection>, side: Side, k: nat)
    requires IsConnectionRun(run) && k < |run|
    ensures Counted(run[k].At(side)) && HoldsSent(run[k].At(side), run[k].At(side.Other()))
  {
    hide React, Inv, Counted, HoldsSent;
    ConnectionRunInv(run, k);
    if k == 0 {
      FreshHolds(run[0], side);
    } else {
      var c, c' := run[k - 1], run[k];
      ConnectionRunInv(run, k - 1);
      RunHoldsSent(run, side, k - 1);
      assert StepsAt(run, k - 1);
      var mover, st := Mover(c, c');
      ReactKeeps(c.At(mover), st);
      if mover == side {
        ReactKarn(c.At(side), st);
        HoldsSentGrows(c.At(side), c'.At(side), c.At(side.Other()));
      } else {
        HoldsSentReceives(c.At(side), c.At(side.Other()), st);
      }
    }
  }

  lemma {:induction false} FreshHolds(c: Connection, side: Side)
    requires Initial(c)
    ensures Counted(c.At(side)) && HoldsSent(c.At(side), c.At(side.Other()))
  {
  }

  /** In every run the peer has accepted at most up to the larger of snd_max and the end of the furthest
      fast retransmission. */
  lemma {:induction false} AcceptedWithin(run: seq<Connection>, side: Side, k: nat)
    requires IsConnectionRun(run) && k < |run|
    ensures var me, peer := run[k].At(side), run[k].At(side.Other());
      peer.rcv.nxt <= Furthest(me.snd.max, me.hist.rexmits)
  {
    RunHoldsSent(run, side, k);
  }

  /** So unless a fast retransmission reached past snd_max, no acknowledgement of the peer is ignored. */
  lemma {:induction false} AcceptedBelowMax(run: seq<Connection>, side: Side, k: nat)
    requires IsConnectionRun(run) && k < |run|
    requires var me := run[k].At(side); forall r :: r in me.hist.rexmits ==> r.hi <= me.snd.max
    ensures run[k].At(side.Other()).rcv.nxt <= run[k].At(side).snd.max
  {
    AcceptedWithin(run, side, k);
    var me := run[k].At(side);
    FurthestLeast(me.snd.max, me.hist.rexmits, me.snd.max);
  }

  // ---------- how far the sender may send ----------

  /** Both sides scale or neither does, and this side has learnt the peer's scale. */
  predicate Agreed(me: Options, peer: Options) {
    me.scaled == peer.scaled && (me.scaled ==> me.peerScale == RCV_SCALE)
  }

  /** The window the sender works with, and everything it has sent in order, lies within the peer's
      buffer. */
  ghost predicate WithinEdge(me: Endpoint, peer: Endpoint) {
    && Agreed(me.opt, peer.opt) && Advertised(peer)
    && me.snd.una + me.snd.wnd <= Edge(peer.rcv) && me.snd.max <= Edge(peer.rcv)
  }

  lemma {:induction false} EdgeSends(me: Endpoint, peer: Endpoint, st: Stimulus)
    requires Inv(me) && Offered(me, peer, st) && WithinEdge(me, peer)
    ensures WithinEdge(React(me, st), peer)
  {
    hide React;
    ReactMoves(me, st);
    if st.Arrival? {
      var i :| 0 <= i < |peer.hist.out| && st.s == peer.hist.out[i];
      assert st.s.ack + Seen(peer, st.s.win) <= Edge(peer.rcv);
    }
  }

  lemma {:induction false} EdgeReceives(me: Endpoint, peer: Endpoint, st: Stimulus)
    requires Inv(peer) && Offered(peer, me, st) && WithinEdge(me, peer)
    ensures WithinEdge(me, React(peer, st))
  {
    hide React;
    ReactMoves(peer, st);
  }

  /** The handshake ended with matching scales and a window the peer's buffer can honour. */
  predicate Sensible(c: Connection, side: Side) {
    Agreed(c.At(side).opt, c.At(side.Other()).opt) && c.At(side).snd.wnd <= BUF_SIZE
  }

  /** Flow control over whole runs: the sender never believes in a window past the end of the peer's
      buffer, and output never sends past it. */
  lemma {:induction false} FlowControlled(run: seq<Connection>, side: Side, k: nat)
    requires IsConnectionRun(run) && k < |run| && Sensible(run[0], side)
    ensures WithinEdge(run[k].At(side), run[k].At(side.Other()))
  {
    hide React, Inv, WithinEdge;
    if k == 0 {
      FreshEdge(run[0], side);
    } else {
      var c, c' := run[k - 1], run[k];
      ConnectionRunInv(run, k - 1);
      FlowControlled(run, side, k - 1);
      assert StepsAt(run, k - 1);
      var mover, st := Mover(c, c');
      if mover == side {
        EdgeSends(c.At(side), c.At(side.Other()), st);
      } else {
        EdgeReceives(c.At(side), c.At(side.Other()), st);
      }
    }
  }

  lemma {:induction false} FreshEdge(c: Connection, side: Side)
    requires Initial(c) && Sensible(c, side)
    ensures WithinEdge(c.At(side), c.At(side.Other()))
  {
  }

  /** Only a fast retransmission can ever carry a byte past the end of the peer's buffer. */
  lemma {:induction false} OnlyResentPassEdge(run: seq<Connection>, side: Side, k: nat, i: nat, p: int)
    requires IsConnectionRun(run) && k < |run| && Sensible(run[0], side)
    requires i < |run[k].At(side).hist.out| && Covers(run[k].At(side).hist.out[i], p)
    requires p >= Edge(run[k].At(side.Other()).rcv)
    ensures exists r :: r in run[k].At(side).hist.rexmits && Again(r, p)
  {
    RunHoldsSent(run, side, k);
    FlowControlled(run, side, k);
    PastMaxIsResent(run[k].At(side), i, p);
  }

  /** The peer accepts every segment that brings the next byte and overlaps nothing it has queued, as
      long as no fast retransmission has passed the end of its buffer. */
  lemma {:induction false} HonestAccepted(run: seq<Connection>, side: Side, k: nat, i: nat)
    requires IsConnectionRun(run) && k < |run| && Sensible(run[0], side)
    requires i < |run[k].At(side).hist.out|
    requires var me, r := run[k].At(side), run[k].At(side.Other()).rcv; var s := me.hist.out[i];
      && s.pos <= r.nxt < s.pos + |s.payload|
      && (forall p :: At(r.ooo, p).Some? ==> p >= s.pos + |s.payload|)
      && (forall x :: x in me.hist.rexmits ==> x.hi <= Edge(r))
    ensures var s := run[k].At(side).hist.out[i];
      Arrive(run[k].At(side.Other()).rcv, s.pos, s.payload).1.Accepted?
  {
    ConnectionRunInv(run, k);
    RunHoldsSent(run, side, k);
    FlowControlled(run, side, k);
    var me, r := run[k].At(side), run[k].At(side.Other()).rcv;
    var s := me.hist.out[i];
    FurthestLeast(me.snd.max, me.hist.rexmits, Edge(r));
    SegmentEnds(me, i);
    TrimmedAccepted(r, s.pos, s.payload);
  }

  lemma {:induction false} TrimmedAccepted(r: Receive, pos: int, data: Bytes)
    requires Consistent(r) && pos <= r.nxt < pos + |data| <= Edge(r)
    requires forall p :: At(r.ooo, p).Some? ==> pos + |data| <= p < Edge(r)
    ensures Arrive(r, pos, data).1.Accepted?
  {
    var rest := data[r.nxt - pos..];
    InWindowAccepted(r, rest);
    assert rest[0..] == rest;
  }
}
