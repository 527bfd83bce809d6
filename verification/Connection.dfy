/** Two endpoints and a network that may lose, repeat and reorder segments: whole-run safety. */
module Connection {
  import opened Serial
  import opened Ring
  import opened Reassembly
  import opened RttEstimator
  import opened Endpoint
  import opened EndpointInvariant
  import opened Run

  datatype Side = A | B {
    function Other(): Side { if A? then B else A }
  }

  /** The network is what each side has ever sent: any of it may arrive at any time, any number of
      times, or never. */
  datatype Connection = Connection(a: Endpoint, b: Endpoint) {
    function At(side: Side): Endpoint { if side.A? then a else b }
  }

  /** What one endpoint may be given: any of its handlers, and only segments the peer has sent. */
  ghost predicate Offered(me: Endpoint, peer: Endpoint, st: Stimulus) {
    && Ready(me) && Possible(me, st)
    && (st.Arrival? ==> exists i :: 0 <= i < |peer.hist.out| && st.s == peer.hist.out[i])
  }

  ghost predicate Moves(me: Endpoint, peer: Endpoint, me': Endpoint) {
    exists st :: Offered(me, peer, st) && me' == React(me, st)
  }

  /** One lock-held handler call on either side. */
  ghost predicate Next(c: Connection, c': Connection) {
    exists side: Side :: c'.At(side.Other()) == c.At(side.Other()) && Moves(c.At(side), c.At(side.Other()), c'.At(side))
  }

  ghost predicate Initial(c: Connection) {
    && (exists alg, opt, wnd :: c.a == Established(alg, opt, wnd))
    && (exists alg, opt, wnd :: c.b == Established(alg, opt, wnd))
  }

  ghost predicate StepsAt(run: seq<Connection>, k: nat)
    requires k + 1 < |run|
  {
    Next(run[k], run[k + 1])
  }

  ghost predicate IsConnectionRun(run: seq<Connection>) {
    && run != []
    && Initial(run[0])
    && forall k: nat :: k + 1 < |run| ==> StepsAt(run, k)
  }

  /** The receiver holds a faithful prefix of the sender's stream, has handed the application exactly
      the part below its read position, and has accepted everything the sender has released. */
  ghost predicate Linked(s: Endpoint, r: Endpoint) {
    && Faithful(r.rcv, s.snd.stream)
    && r.hist.read == s.snd.stream[..r.rcv.ReadPos()]
    && s.snd.una <= r.rcv.nxt
  }

  ghost predicate ConnectionInv(c: Connection) {
    Inv(c.a) && Inv(c.b) && Linked(c.a, c.b) && Linked(c.b, c.a)
  }

  // ---------- one step ----------

  lemma {:induction false} FaithfulExtend(r: Receive, stream: Bytes, more: Bytes)
    requires Faithful(r, stream)
    ensures Faithful(r, stream + more)
  {
  }

  /** Receiving one of the peer's segments keeps both directions linked. */
  lemma {:induction false} DeliverLinked(me: Endpoint, peer: Endpoint, s: Segment, sample: Option<u32>, fired: bool)
    requires Inv(me) && Linked(me, peer) && Linked(peer, me)
    requires Genuine(s, peer.snd.stream, peer.rcv.nxt)
    ensures var me' := OnSegment(me, s, sample, fired);
      Inv(me') && Linked(me', peer) && Linked(peer, me')
  {
    OnSegmentKeeps(me, s, sample, fired);
    if s.payload != [] {
      ArriveConsistent(me.rcv, s.pos, s.payload);
      ArriveFaithful(me.rcv, s.pos, s.payload, peer.snd.stream);
    }
  }

  lemma {:induction false} SendLinked(me: Endpoint, peer: Endpoint, data: Bytes)
    requires Inv(me) && Linked(me, peer) && Linked(peer, me)
    requires Possible(me, AppSend(data))
    ensures var me' := OnSend(me, data);
      Inv(me') && Linked(me', peer) && Linked(peer, me')
  {
    OnSendKeeps(me, data);
    FaithfulExtend(peer.rcv, me.snd.stream, data);
  }

  lemma {:induction false} ReadLinked(me: Endpoint, peer: Endpoint, len: nat)
    requires Inv(me) && Linked(me, peer) && Linked(peer, me)
    ensures var me' := OnRead(me, len);
      Inv(me') && Linked(me', peer) && Linked(peer, me')
  {
    OnReadKeeps(me, len);
    TakeFaithful(me.rcv, len, peer.snd.stream);
  }

  /** Every handler of either side keeps both directions linked. */
  lemma {:induction false} ReactLinked(me: Endpoint, peer: Endpoint, st: Stimulus)
    requires Inv(me) && Inv(peer) && Linked(me, peer) && Linked(peer, me) && Offered(me, peer, st)
    ensures var me' := React(me, st);
      Inv(me') && Linked(me', peer) && Linked(peer, me')
  {
    match st
    case AppSend(data) =>
      SendLinked(me, peer, data);
    case AppRead(len) =>
      ReadLinked(me, peer, len);
    case Arrival(s, sample, fired) =>
      DeliverLinked(me, peer, s, sample, fired);
    case Clock(fired) =>
      hide OnTick;
      OnTickKeeps(me, fired);
  }

  lemma {:induction false} NextKeeps(c: Connection, c': Connection, side: Side)
    requires ConnectionInv(c) && Next(c, c')
    ensures ConnectionInv(c') && Grows(c.At(side), c'.At(side)) && FreshFromBuffer(c.At(side), c'.At(side))
  {
    hide React, Inv, Linked, Grows, FreshFromBuffer;
    var mover, st := Mover(c, c');
    var me, peer := c.At(mover), c.At(mover.Other());
    ReactLinked(me, peer, st);
    ReactKeeps(me, st);
    Unmoved(peer);
  }

  /** Which side moves, and on what. */
  lemma {:induction false} Mover(c: Connection, c': Connection) returns (side: Side, st: Stimulus)
    requires Next(c, c')
    ensures Offered(c.At(side), c.At(side.Other()), st) && c'.At(side) == React(c.At(side), st)
    ensures c'.At(side.Other()) == c.At(side.Other())
  {
    hide React;
    side :| c'.At(side.Other()) == c.At(side.Other()) && Moves(c.At(side), c.At(side.Other()), c'.At(side));
    st :| Offered(c.At(side), c.At(side.Other()), st) && c'.At(side) == React(c.At(side), st);
  }

  lemma {:induction false} Unmoved(e: Endpoint)
    ensures Grows(e, e) && FreshFromBuffer(e, e)
  {
  }

  // ---------- whole runs ----------

  lemma {:induction false} ConnectionRunInv(run: seq<Connection>, k: nat)
    requires IsConnectionRun(run) && k < |run|
    ensures ConnectionInv(run[k])
  {
    if k > 0 {
      ConnectionRunInv(run, k - 1);
      assert StepsAt(run, k - 1);
      NextKeeps(run[k - 1], run[k], A);
    } else {
      InitialInv(run[0]);
    }
  }

  lemma {:induction false} InitialInv(c: Connection)
    requires Initial(c)
    ensures ConnectionInv(c)
  {
  }

  lemma {:induction false} StepGrows(run: seq<Connection>, side: Side, k: nat)
    requires IsConnectionRun(run) && k + 1 < |run|
    ensures Grows(run[k].At(side), run[k + 1].At(side))
    ensures FreshFromBuffer(run[k].At(side), run[k + 1].At(side))
  {
    ConnectionRunInv(run, k);
    assert StepsAt(run, k);
    hide ConnectionInv, Grows, FreshFromBuffer, Next;
    NextKeeps(run[k], run[k + 1], side);
  }

  lemma {:induction false} RunGrows(run: seq<Connection>, side: Side, i: nat, j: nat)
    requires IsConnectionRun(run) && i <= j < |run|
    ensures Grows(run[i].At(side), run[j].At(side))
  {
    if i < j {
      hide IsConnectionRun, Grows;
      RunGrows(run, side, i, j - 1);
      StepGrows(run, side, j - 1);
      GrowsTransitive(run[i].At(side), run[j - 1].At(side), run[j].At(side));
    }
  }

  /** End-to-end safety: in every state of every run, what each application has read so far is a
      prefix of what the other has sent so far. */
  lemma {:induction false} EndToEnd(run: seq<Connection>, side: Side, k: nat)
    requires IsConnectionRun(run) && k < |run|
    ensures run[k].At(side.Other()).hist.read <= run[k].At(side).snd.stream
  {
    ConnectionRunInv(run, k);
  }

  /** No early release: the sender frees a byte only after the peer has accepted it in order, and the
      peer never accepts a byte that was not sent. */
  lemma {:induction false} NoEarlyRelease(run: seq<Connection>, side: Side, k: nat)
    requires IsConnectionRun(run) && k < |run|
    ensures var me, peer := run[k].At(side), run[k].At(side.Other());
      me.snd.una <= peer.rcv.nxt <= |me.snd.stream|
  {
    ConnectionRunInv(run, k);
  }

  /** utcp_drain returns when send_buf_head reaches send_buf_tail: from then on the peer holds or has
      read everything sent by that time, in every later state too. */
  lemma {:induction false} DrainedMeansDelivered(run: seq<Connection>, side: Side, i: nat, j: nat)
    requires IsConnectionRun(run) && i <= j < |run|
    requires run[i].At(side).snd.una == |run[i].At(side).snd.stream|
    ensures var peer := run[j].At(side.Other());
      run[i].At(side).snd.stream <= peer.hist.read + peer.rcv.unread
  {
    ConnectionRunInv(run, i);
    ConnectionRunInv(run, j);
    RunGrows(run, side, i, j);
    RunGrows(run, side.Other(), i, j);
    DrainedNow(run[i].At(side), run[i].At(side.Other()), run[j].At(side), run[j].At(side.Other()));
  }

  lemma {:induction false} DrainedNow(me: Endpoint, peer: Endpoint, me': Endpoint, peer': Endpoint)
    requires Linked(me, peer) && me.snd.una == |me.snd.stream|
    requires Linked(me', peer') && Grows(me, me') && Grows(peer, peer')
    ensures me.snd.stream <= peer'.hist.read + peer'.rcv.unread
  {
    assert peer'.hist.read + peer'.rcv.unread == me'.snd.stream[..peer'.rcv.nxt];
    assert me.snd.stream == me'.snd.stream[..|me.snd.stream|];
  }

  /** Whatever a step of a run sends, first time or again, lies inside the send buffer of that moment
      and is the slice of the stream its sequence number names. */
  lemma {:induction false} PayloadsFromBuffer(run: seq<Connection>, side: Side, k: nat, i: nat)
    requires IsConnectionRun(run) && k + 1 < |run| && |run[k].At(side).hist.out| <= i < |run[k + 1].At(side).hist.out|
    ensures var e := run[k + 1].At(side); var s := e.hist.out[i];
      && 0 <= e.snd.una <= s.pos && s.pos + |s.payload| <= |e.snd.stream|
      && s.payload == e.snd.stream[s.pos..s.pos + |s.payload|]
  {
    StepGrows(run, side, k);
    ConnectionRunInv(run, k + 1);
    var e := run[k + 1].At(side);
    assert Genuine(e.hist.out[i], e.snd.stream, e.rcv.nxt);
  }

  /** A segment lies within the reach of serial arithmetic around `nxt` and its acknowledgement is a
      number of the stream it acknowledges, so both decode exactly from their wire form. */
  predicate Decodable(s: Segment, nxt: int) {
    && -TWO31 < s.pos - nxt && s.pos + |s.payload| - nxt < TWO31
    && 0 <= nxt < STREAM_LIMIT && 0 <= s.ack < STREAM_LIMIT
    && Unwrap(1 + nxt, Wrap(1 + s.pos)) == 1 + s.pos
    && Wrap(1 + s.ack) == 1 + s.ack
  }

  lemma {:induction false} LinkedReach(me: Endpoint, peer: Endpoint, i: nat)
    requires Inv(me) && Inv(peer) && Linked(me, peer) && Linked(peer, me) && i < |peer.hist.out|
    ensures Decodable(peer.hist.out[i], me.rcv.nxt)
  {
    assert Genuine(peer.hist.out[i], peer.snd.stream, peer.rcv.nxt);
    UnwrapWrap(1 + me.rcv.nxt, 1 + peer.hist.out[i].pos);
  }

  /** In every state of every run, whatever may arrive decodes exactly. */
  lemma {:induction false} WireReach(run: seq<Connection>, side: Side, k: nat, i: nat)
    requires IsConnectionRun(run) && k < |run| && i < |run[k].At(side.Other()).hist.out|
    ensures Decodable(run[k].At(side.Other()).hist.out[i], run[k].At(side).rcv.nxt)
  {
    hide Inv, Linked, Decodable;
    ConnectionRunInv(run, k);
    LinkedReach(run[k].At(side), run[k].At(side.Other()), i);
  }

  /** At every lock release of every run, on both sides: the sender's order and buffer bound, the
      timer equivalence, the delayed-ACK equivalence and the shared receive space. */
  lemma {:induction false} LockReleaseFacts(run: seq<Connection>, side: Side, k: nat)
    requires IsConnectionRun(run) && k < |run|
    ensures var e := run[k].At(side);
      && SenderOk(e.snd)
      && (e.tm.rexmt > 0 <==> e.snd.una != e.snd.max) && 0 <= e.tm.rexmt <= RTO_MAX
      && (e.delayed <==> 1 <= e.tm.delack <= DELACK_TICKS)
      && (e.hist.lastAck != e.rcv.nxt ==> e.delayed) && e.hist.unacked <= 1
      && |e.rcv.unread| + Count(e.rcv.ooo) <= BUF_SIZE
      && (e.rcv.ooo != [] ==> e.rcv.ooo[0].pos > e.rcv.nxt)
  {
    ConnectionRunInv(run, k);
  }
}
