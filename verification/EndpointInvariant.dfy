/** What every handler of one endpoint keeps, for arbitrary incoming segments: the sender's sequence
    variables, the genuineness of everything sent, both timers, the delayed ACK, fast recovery. */
module EndpointInvariant {
  import opened Serial
  import opened Ring
  import opened Reassembly
  import opened Congestion
  import opened RttEstimator
  import opened WindowScale
  import opened Endpoint
  import opened Burst

  /** Sender: send_buf_head is una, una <= nxt <= max <= tail, and the ring is never overrun. */
  predicate SenderOk(s: Send) {
    0 <= s.una <= s.nxt <= s.max <= |s.stream| < STREAM_LIMIT && |s.stream| - s.una <= BUF_SIZE
  }

  /** A segment carries at most one MSS, the matching slice of the stream, and acknowledges nothing
      not received. */
  predicate Genuine(s: Segment, stream: Bytes, received: int) {
    && |s.payload| <= MSS && 0 <= s.pos && s.pos + |s.payload| <= |stream|
    && s.payload == stream[s.pos..s.pos + |s.payload|]
    && 0 <= s.ack <= received
  }

  ghost predicate AllGenuine(out: seq<Segment>, stream: Bytes, received: int) {
    forall i :: 0 <= i < |out| ==> Genuine(out[i], stream, received)
  }

  /** The retransmission timer runs exactly when something is unacknowledged, within 1..6400 ticks. */
  predicate RexmtOk(s: Send, t: Timers) {
    && (t.rexmt > 0 <==> s.una != s.max)
    && 0 <= t.rexmt <= RTO_MAX
    && t.shift <= MAX_SHIFT
    && Sound(t.est)
  }

  /** Delayed ACK: the flag is set exactly while its timer is in 1..20; unless an ACK is being forced
      right now, anything received but not acknowledged has it set, and that is one segment at most. */
  predicate DelackOk(e: Endpoint) {
    && (e.delayed <==> 1 <= e.tm.delack <= DELACK_TICKS)
    && 0 <= e.tm.delack <= DELACK_TICKS
    && (!e.acknow ==>
          && (e.hist.lastAck != e.rcv.nxt ==> e.delayed)
          && e.hist.unacked <= if e.delayed then 1 else 0)
  }

  predicate Increasing(s: seq<Resent>) {
    forall i, j :: 0 <= i < j < |s| ==> s[i].lo < s[j].lo
  }

  /** Fast retransmissions so far: strictly increasing, none past una or recover. */
  predicate RexmitsOk(rexmits: seq<Resent>, c: Cc, una: int) {
    && Increasing(rexmits)
    && forall i :: 0 <= i < |rexmits| ==> rexmits[i].lo <= una && rexmits[i].lo <= c.recover
  }

  /** Fast recovery of NewReno and LSTM-Reno: in recovery, una < recover <= max. */
  predicate RecoveryOk(e: Endpoint) {
    Modern(e.alg) ==>
      && e.cc.recover <= e.snd.max
      && (e.cc.ca.Recovery? ==> e.snd.una < e.cc.recover)
      && RexmitsOk(e.hist.rexmits, e.cc, e.snd.una)
  }

  /** Everything but fast recovery. */
  ghost predicate Base(e: Endpoint) {
    && SenderOk(e.snd)
    && AllGenuine(e.hist.out, e.snd.stream, e.rcv.nxt)
    && RexmtOk(e.snd, e.tm)
    && DelackOk(e)
    && InRange(e.cc)
    && Consistent(e.rcv) && 0 <= e.rcv.nxt
    && e.dupacks <= 255
  }

  /** Holds between the parts of a handler, where an ACK may be waiting to be forced out. */
  ghost predicate Mid(e: Endpoint) {
    Base(e) && RecoveryOk(e)
  }

  /** Holds at every lock release. */
  ghost predicate Inv(e: Endpoint) {
    Mid(e) && !e.acknow
  }

  /** An established connection starts in the invariant. */
  lemma {:induction false} EstablishedInv(alg: Algorithm, opt: Options, wnd: u32)
    ensures Inv(Established(alg, opt, wnd))
  {
  }

  /** What never goes backwards. */
  ghost predicate Grows(e: Endpoint, e': Endpoint) {
    && e'.alg == e.alg && e'.opt == e.opt
    && e.snd.stream <= e'.snd.stream
    && e.snd.una <= e'.snd.una && e.snd.max <= e'.snd.max
    && e.rcv.nxt <= e'.rcv.nxt
    && e.hist.out <= e'.hist.out
    && e.hist.rexmits <= e'.hist.rexmits
    && e.hist.read <= e'.hist.read
  }

  lemma {:induction false} GrowsTransitive(a: Endpoint, b: Endpoint, c: Endpoint)
    requires Grows(a, b) && Grows(b, c)
    ensures Grows(a, c)
  {
  }

  /** Every segment added between the two states acknowledges all that the first had received in order. */
  ghost predicate FreshAcks(e: Endpoint, e': Endpoint) {
    && |e.hist.out| <= |e'.hist.out|
    && forall i :: |e.hist.out| <= i < |e'.hist.out| ==> e.rcv.nxt <= e'.hist.out[i].ack
  }

  /** Every segment added between the two states carries bytes from inside the final send buffer. */
  ghost predicate FreshFromBuffer(e: Endpoint, e': Endpoint) {
    && FreshAcks(e, e')
    && forall i :: |e.hist.out| <= i < |e'.hist.out| ==>
         e'.snd.una <= e'.hist.out[i].pos && e'.hist.out[i].pos + |e'.hist.out[i].payload| <= |e'.snd.stream|
  }

  /** A handler's effect outside the receive side and the acknowledgement state. */
  ghost predicate SendOnly(e: Endpoint, e': Endpoint) {
    && Grows(e, e') && FreshFromBuffer(e, e')
    && e'.snd.stream == e.snd.stream && e'.snd.una == e.snd.una
    && e'.rcv == e.rcv && e'.hist.read == e.hist.read && e'.dupacks == e.dupacks
  }

  /** Congestion state, fast retransmissions and the backoff untouched. */
  predicate SameRecovery(e: Endpoint, e': Endpoint) {
    e'.cc == e.cc && e'.hist.rexmits == e.hist.rexmits && e'.snd.una == e.snd.una && e'.tm.shift == e.tm.shift
  }

  // ---------- output ----------

  lemma {:induction false} PiecesGenuine(e: Endpoint, lo: int, hi: int)
    requires 0 <= lo && hi <= |e.snd.stream| && 0 <= e.rcv.nxt
    ensures AllGenuine(Pieces(e, lo, hi), e.snd.stream, e.rcv.nxt)
    ensures forall i :: 0 <= i < |Pieces(e, lo, hi)| ==>
      Pieces(e, lo, hi)[i].pos >= lo && Pieces(e, lo, hi)[i].ack == e.rcv.nxt
    decreases hi - lo
  {
    if lo < hi {
      PiecesGenuine(e, Min(lo + MSS, hi), hi);
    }
  }

  /** utcp_output keeps everything, forces out the waiting ACK, and only sends. */
  lemma {:induction false} OutputKeeps(e: Endpoint)
    requires Mid(e)
    ensures Inv(Output(e)) && SendOnly(e, Output(e))
    ensures SameRecovery(e, Output(e))
  {
    OutputClosedForm(e);
    BurstKeeps(e.(acknow := false), e.acknow);
  }

  /** The segments of a burst are genuine slices at or past nxt and acknowledge what has been received. */
  ghost predicate BurstSegments(segs: seq<Segment>, e: Endpoint) {
    && AllGenuine(segs, e.snd.stream, e.rcv.nxt)
    && forall i :: 0 <= i < |segs| ==> segs[i].pos >= e.snd.nxt && segs[i].ack == e.rcv.nxt
  }

  /** A burst changes the history by such segments, or nothing at all. */
  lemma {:induction false} BurstSends(e: Endpoint, force: bool) returns (segs: seq<Segment>)
    requires SenderOk(e.snd) && Ready(e) && e.cc.cwnd >= 0 && 0 <= e.rcv.nxt
    ensures BurstSegments(segs, e)
    ensures var e' := Burst.Burst(e, force); var b := BurstBytes(e);
      if b == 0 && !force then e' == e
      else
        && 0 <= b <= |e.snd.stream| - e.snd.nxt
        && e' == e.(snd := AdvanceSend(e.snd, b), tm := BurstTimers(e, b), delayed := false,
                    hist := e.hist.(out := e.hist.out + segs, lastAck := e.rcv.nxt, unacked := 0))
  {
    var b := BurstBytes(e);
    hide BurstBytes, BurstTimers;
    segs := [];
    if b > 0 {
      segs := Pieces(e, e.snd.nxt, e.snd.nxt + b);
      PiecesGenuine(e, e.snd.nxt, e.snd.nxt + b);
    } else if force {
      segs := [Segment(e.snd.nxt, e.rcv.nxt, Window(e), [])];
    }
  }

  lemma {:induction false} BurstKeeps(e: Endpoint, force: bool)
    requires Mid(e.(acknow := force)) && !e.acknow
    ensures var e' := Burst.Burst(e, force);
      Inv(e') && SendOnly(e, e') && SameRecovery(e, e')
  {
    var b := BurstBytes(e);
    var segs := BurstSends(e, force);
    hide BurstBytes, Burst.Burst, Consistent, FirstNew;
  }

  // ---------- retransmission and congestion events ----------

  /** Every fast retransmission so far lies strictly below una. */
  predicate AllBelow(e: Endpoint) {
    forall i :: 0 <= i < |e.hist.rexmits| ==> e.hist.rexmits[i].lo < e.snd.una
  }

  /** utcp_retransmit_segment at una carries a slice of the send buffer, possibly past max. */
  lemma {:induction false} RetransmitKeeps(e: Endpoint)
    requires Mid(e)
    requires Modern(e.alg) ==> e.snd.una <= e.cc.recover && AllBelow(e)
    ensures var e' := RetransmitHead(e);
      && Mid(e') && SendOnly(e, e') && e'.acknow == e.acknow && e'.cc == e.cc
      && e'.hist.rexmits == e.hist.rexmits + [Head(e.snd)]
  {
  }

  lemma {:induction false} PerformKeeps(e: Endpoint, act: Act)
    requires Inv(e)
    requires act == Retransmit && Modern(e.alg) ==> e.snd.una <= e.cc.recover && AllBelow(e)
    ensures var e' := Perform(e, act);
      && Inv(e') && SendOnly(e, e') && e'.cc == e.cc && e'.tm.shift == e.tm.shift
      && e'.hist.rexmits == e.hist.rexmits + if act == Retransmit then [Head(e.snd)] else []
  {
    match act
    case Quiet =>
    case Retransmit =>
      RetransmitKeeps(e);
    case Burst =>
      OutputKeeps(e);
  }

  /** The recovery facts right after una has moved: recovery may be about to end. */
  predicate RecoveryMoved(e: Endpoint) {
    Modern(e.alg) ==>
      && e.cc.recover <= e.snd.max
      && RexmitsOk(e.hist.rexmits, e.cc, e.snd.una)
      && AllBelow(e)
  }

  /** The congestion state an event leads to fits the sender, and what it retransmits is new. */
  lemma {:induction false} NextCcKeeps(e: Endpoint, ev: Event, fired: bool)
    requires Base(e) && !ev.Init?
    requires if ev.Ack? then RecoveryMoved(e) else RecoveryOk(e)
    requires ev.DupAck? ==> e.snd.una != e.snd.max
    ensures var (c, act) := NextCc(e, ev, fired);
      && InRange(c)
      && RecoveryOk(e.(cc := c))
      && (act == Retransmit && Modern(e.alg) ==> e.snd.una <= c.recover && AllBelow(e))
  {
    var w := Flight(e.snd.una, e.snd.nxt, e.snd.max);
    ControlInRange(e.alg, e.cc, Input(ev, w, fired));
  }

  lemma {:induction false} CongestKeeps(e: Endpoint, ev: Event, fired: bool)
    requires Base(e) && !ev.Init? && !e.acknow
    requires if ev.Ack? then RecoveryMoved(e) else RecoveryOk(e)
    requires ev.DupAck? ==> e.snd.una != e.snd.max
    ensures var e' := Congest(e, ev, fired); var (c, act) := NextCc(e, ev, fired);
      && Inv(e') && SendOnly(e, e') && e'.cc == c && e'.tm.shift == e.tm.shift
      && e'.hist.rexmits == e.hist.rexmits + if act == Retransmit then [Head(e.snd)] else []
  {
    NextCcKeeps(e, ev, fired);
    var (c, act) := NextCc(e, ev, fired);
    PerformKeeps(e.(cc := c), act);
  }

  // ---------- arrival ----------

  /** What happens before the congestion event: una and the windows move, nothing is sent. */
  ghost predicate Slid(e: Endpoint, e': Endpoint, ack: int) {
    && e.snd.una <= ack && e'.snd.una == ack && e'.snd.stream == e.snd.stream && e'.snd.max == e.snd.max
    && e'.rcv == e.rcv && e'.hist == e.hist && e'.alg == e.alg && e'.opt == e.opt && e'.cc == e.cc
  }

  lemma {:induction false} SlideKeeps(e: Endpoint, ack: int, wnd: u32, sample: Option<u32>)
    requires Inv(e) && e.snd.una < ack <= e.snd.max
    ensures var e' := Slide(e, ack, wnd, sample);
      Base(e') && RecoveryMoved(e') && !e'.acknow && Slid(e, e', ack)
  {
  }

  /** Where an acknowledgement takes una: forward to a number already sent, or nowhere. */
  function NextUna(e: Endpoint, ack: int): int {
    if e.snd.una < ack <= e.snd.max then ack else e.snd.una
  }

  /** What acknowledgement processing may do: move una to `una` and send. */
  ghost predicate AckStep(e: Endpoint, e': Endpoint, una: int) {
    && Inv(e') && Grows(e, e') && FreshFromBuffer(e, e')
    && e'.snd.una == una && e'.snd.stream == e.snd.stream
    && e'.rcv == e.rcv && e'.hist.read == e.hist.read
  }

  lemma {:induction false} SlideThenSend(e: Endpoint, e1: Endpoint, e2: Endpoint, ack: int)
    requires Slid(e, e1, ack) && Inv(e2) && SendOnly(e1, e2)
    ensures AckStep(e, e2, ack)
  {
  }

  /** The congestion event after una has moved to `ack`. */
  lemma {:induction false} SlidThenCongest(e: Endpoint, e1: Endpoint, ack: int, ev: Event, fired: bool)
    requires Base(e1) && !e1.acknow && Slid(e, e1, ack)
    requires (ev.Ack? && RecoveryMoved(e1)) || (ev.DupAck? && RecoveryOk(e1) && e1.snd.una != e1.snd.max)
    ensures AckStep(e, Congest(e1, ev, fired), ack)
  {
    CongestKeeps(e1, ev, fired);
    SlideThenSend(e, e1, Congest(e1, ev, fired), ack);
  }

  lemma {:induction false} NewAckKeeps(e: Endpoint, ack: int, wnd: u32, sample: Option<u32>, fired: bool)
    requires Inv(e) && e.snd.una < ack <= e.snd.max
    ensures AckStep(e, NewAck(e, ack, wnd, sample, fired), ack)
  {
    SlideKeeps(e, ack, wnd, sample);
    SlidThenCongest(e, Slide(e, ack, wnd, sample), ack, Ack(ack - e.snd.una), fired);
  }

  lemma {:induction false} DupAckKeeps(e: Endpoint, wnd: u32, fired: bool)
    requires Inv(e) && e.snd.una != e.snd.max
    ensures AckStep(e, RepeatedAck(e, wnd, fired), e.snd.una)
  {
    var dups := Min(e.dupacks + 1, 255);
    SlidThenCongest(e, e.(snd := e.snd.(wnd := wnd), dupacks := dups), e.snd.una, DupAck(dups), fired);
  }

  lemma {:induction false} HandleAckKeeps(e: Endpoint, s: Segment, sample: Option<u32>, fired: bool)
    requires Inv(e)
    ensures AckStep(e, HandleAck(e, s, sample, fired), NextUna(e, s.ack))
  {
    var wnd := FromField(e.opt.scaled, e.opt.peerScale, s.win);
    if e.snd.una < s.ack <= e.snd.max {
      NewAckKeeps(e, s.ack, wnd, sample, fired);
    } else if s.ack == e.snd.una && wnd <= e.snd.wnd && s.payload == [] && e.snd.una != e.snd.max {
      DupAckKeeps(e, wnd, fired);
    }
  }

  /** What the data half may do. */
  ghost predicate DataStep(e: Endpoint, e': Endpoint, r: Receive) {
    && Inv(e') && Grows(e, e') && FreshFromBuffer(e, e')
    && SameRecovery(e, e') && e'.snd.stream == e.snd.stream && e'.hist.read == e.hist.read
    && e'.rcv == r
  }

  /** Take `r`, note what is to be acknowledged, and call output. */
  lemma {:induction false} TakeThenOutput(e: Endpoint, e1: Endpoint, r: Receive)
    requires Inv(e) && Mid(e1) && r.nxt >= e.rcv.nxt
    requires e1 == e.(rcv := r, acknow := e1.acknow, delayed := e1.delayed, tm := e.tm.(delack := e1.tm.delack),
                      hist := e.hist.(unacked := e1.hist.unacked))
    ensures DataStep(e, Output(e1), r)
  {
    hide Output, Inv, RecoveryOk, Base;
    OutputKeeps(e1);
  }

  /** More received in order keeps earlier segments genuine. */
  lemma {:induction false} TakeKeeps(e: Endpoint, r: Receive)
    requires Inv(e) && Consistent(r) && r.nxt >= e.rcv.nxt
    ensures Mid(e.(rcv := r, acknow := true))
    ensures r.nxt > e.rcv.nxt ==> forall gap :: Mid(Acknowledge(e.(rcv := r), gap))
  {
    hide Consistent;
  }

  lemma {:induction false} HandleDataKeeps(e: Endpoint, s: Segment)
    requires Inv(e) && s.payload != []
    ensures var e' := HandleData(e, s);
      && Inv(e') && Grows(e, e') && FreshFromBuffer(e, e')
      && SameRecovery(e, e') && e'.snd.stream == e.snd.stream && e'.hist.read == e.hist.read
      && e'.rcv == Arrive(e.rcv, s.pos, s.payload).0
  {
    ArriveConsistent(e.rcv, s.pos, s.payload);
    var (r, outcome) := Arrive(e.rcv, s.pos, s.payload);
    TakeKeeps(e, r);
    hide Output, Consistent, Base, RecoveryOk;
    match outcome
    case Duplicate =>
      TakeThenOutput(e, e.(acknow := true), r);
    case NoSpace =>
    case OutOfOrder =>
      TakeThenOutput(e, e.(rcv := r, acknow := true), r);
    case Accepted(gap) =>
      TakeThenOutput(e, Acknowledge(e.(rcv := r), gap), r);
  }

  /** The receive side after a segment. */
  function NextRcv(e: Endpoint, s: Segment): Receive {
    if s.payload == [] then e.rcv else Arrive(e.rcv, s.pos, s.payload).0
  }

  /** handle_received_data keeps the invariant for any segment whatsoever. */
  lemma {:induction false} OnSegmentKeeps(e: Endpoint, s: Segment, sample: Option<u32>, fired: bool)
    requires Inv(e)
    ensures var e' := OnSegment(e, s, sample, fired);
      && Inv(e') && Grows(e, e') && FreshFromBuffer(e, e')
      && e'.snd.una == NextUna(e, s.ack) && e'.snd.stream == e.snd.stream
      && e'.rcv == NextRcv(e, s) && e'.hist.read == e.hist.read
  {
    HandleAckKeeps(e, s, sample, fired);
    var e1 := HandleAck(e, s, sample, fired);
    if s.payload == [] {
      OutputKeeps(e1);
    } else {
      HandleDataKeeps(e1, s);
    }
  }

  // ---------- the application and the timers ----------

  lemma {:induction false} OnSendKeeps(e: Endpoint, data: Bytes)
    requires Inv(e) && |data| <= SendRoom(e) && |e.snd.stream| + |data| < STREAM_LIMIT
    ensures var e' := OnSend(e, data);
      && Inv(e') && Grows(e, e') && FreshFromBuffer(e, e')
      && SameRecovery(e, e') && e'.snd.stream == e.snd.stream + data
      && e'.rcv == e.rcv && e'.hist.read == e.hist.read
  {
    var e1 := e.(snd := e.snd.(stream := e.snd.stream + data));
    assert AllGenuine(e1.hist.out, e1.snd.stream, e1.rcv.nxt);
    OutputKeeps(e1);
  }

  lemma {:induction false} OnReadKeeps(e: Endpoint, len: nat)
    requires Inv(e)
    ensures var e' := OnRead(e, len); var (r, bytes) := TakeUnread(e.rcv, len);
      && Inv(e') && Grows(e, e') && FreshFromBuffer(e, e')
      && SameRecovery(e, e') && e'.snd.stream == e.snd.stream
      && e'.rcv == r && e'.hist.read == e.hist.read + bytes
  {
    var (r, bytes) := TakeUnread(e.rcv, len);
    var e1 := e.(rcv := r, hist := e.hist.(read := e.hist.read + bytes));
    if r.Free() >= MSS || |e.rcv.unread| == BUF_SIZE {
      OutputKeeps(e1.(acknow := true));
    }
  }

  lemma {:induction false} RolledBackKeeps(e: Endpoint)
    requires Inv(e) && e.tm.rexmt == 1 && e.tm.shift < MAX_SHIFT
    ensures Base(RolledBack(e)) && RecoveryOk(RolledBack(e)) && SendOnly(e, RolledBack(e)) && !RolledBack(e).acknow
  {
  }

  /** Expiry overwrites the timer, so it does not matter that the tick has just cleared it. */
  lemma {:induction false} ExpiryByParts(e: Endpoint)
    requires Ready(e) && e.tm.shift < MAX_SHIFT
    ensures RolledBack(e.(tm := e.tm.(rexmt := 0))) == RolledBack(e)
  {
  }

  /** An expiration in one piece. */
  lemma {:induction false} ExpiryIs(e: Endpoint, fired: bool)
    requires Ready(e) && e.tm.rexmt == 1 && e.tm.shift < MAX_SHIFT
    ensures var e' := Output(Congest(RolledBack(e), Timeout(e.snd.nxt - e.snd.una), fired));
      TickRexmt(e, fired) == e' && RexmtExpired(e.(tm := e.tm.(rexmt := 0)), fired) == e'
  {
    hide Congest, Output, RolledBack, Sound;
    ExpiryByParts(e);
    var e1 := e.(tm := e.tm.(rexmt := 0));
    assert RolledBack(e1) == RolledBack(e) && e1.snd == e.snd;
    assert TickRexmt(e, fired) == RexmtExpired(e1, fired);
  }

  lemma {:induction false} SendOnlyTransitive(a: Endpoint, b: Endpoint, c: Endpoint)
    requires SendOnly(a, b) && SendOnly(b, c)
    ensures SendOnly(a, c)
  {
    GrowsTransitive(a, b, c);
  }

  /** The congestion state after an expiration. */
  function TimeoutCc(e: Endpoint, fired: bool): Cc
    requires Ready(e)
  {
    Control(e.alg, e.cc, Input(Timeout(e.snd.nxt - e.snd.una), Flight(e.snd.una, e.snd.una, e.snd.max), fired)).0
  }

  /** What a tick does to the congestion state and the backoff: one expiration, if it is due. */
  predicate Ticked(e: Endpoint, e': Endpoint, fired: bool) {
    && Ready(e)
    && e'.cc == (if e.tm.rexmt == 1 then TimeoutCc(e, fired) else e.cc)
    && e'.tm.shift == e.tm.shift + (if e.tm.rexmt == 1 then 1 else 0)
    && e'.hist.rexmits == e.hist.rexmits
    && (e.tm.rexmt > 1 ==> e'.tm.rexmt == e.tm.rexmt - 1)
  }

  lemma {:induction false} RolledBackCc(e: Endpoint, fired: bool)
    requires Ready(e) && e.tm.shift < MAX_SHIFT
    ensures var e1 := RolledBack(e);
      && NextCc(e1, Timeout(e.snd.nxt - e.snd.una), fired).0 == TimeoutCc(e, fired)
      && e1.tm.shift == e.tm.shift + 1 && e1.hist == e.hist
  {
    hide Control, Sound;
  }

  /** Expiry: the timer is re-armed, the rollback and the cut keep everything, the burst follows. */
  lemma {:induction false} RexmtExpiredKeeps(e: Endpoint, fired: bool)
    requires Inv(e) && e.tm.rexmt == 1 && e.tm.shift < MAX_SHIFT
    ensures var e' := RexmtExpired(e.(tm := e.tm.(rexmt := 0)), fired);
      Inv(e') && SendOnly(e, e') && Ticked(e, e', fired)
  {
    assert Ready(e);
    hide RexmtExpired, Congest, Output, Inv, SendOnly, NextCc, TimeoutCc;
    var e1, ev := RolledBack(e), Timeout(e.snd.nxt - e.snd.una);
    RolledBackKeeps(e);
    RolledBackCc(e, fired);
    ExpiryIs(e, fired);
    hide RolledBack, Base, RecoveryOk;
    CutThenBurst(e1, ev, fired);
    SendOnlyTransitive(e, e1, Output(Congest(e1, ev, fired)));
  }

  lemma {:induction false} CutThenBurst(e: Endpoint, ev: Event, fired: bool)
    requires Base(e) && RecoveryOk(e) && !e.acknow && ev.Timeout?
    ensures var e' := Output(Congest(e, ev, fired));
      && Inv(e') && SendOnly(e, e')
      && e'.cc == NextCc(e, ev, fired).0 && e'.tm.shift == e.tm.shift && e'.hist.rexmits == e.hist.rexmits
  {
    CongestKeeps(e, ev, fired);
    var e2 := Congest(e, ev, fired);
    OutputKeeps(e2);
    SendOnlyTransitive(e, e2, Output(e2));
  }

  lemma {:induction false} TickRexmtKeeps(e: Endpoint, fired: bool)
    requires Inv(e) && (e.tm.rexmt == 1 ==> e.tm.shift < MAX_SHIFT)
    ensures var e' := TickRexmt(e, fired);
      Inv(e') && SendOnly(e, e') && Ticked(e, e', fired)
  {
    if e.tm.rexmt == 1 {
      RexmtExpiredKeeps(e, fired);
    }
  }

  lemma {:induction false} TickDelackKeeps(e: Endpoint)
    requires Inv(e)
    ensures var e' := TickDelack(e);
      && Inv(e') && SendOnly(e, e') && SameRecovery(e, e')
      && (e.tm.rexmt > 0 ==> e'.tm.rexmt == e.tm.rexmt)
  {
    if e.tm.delack == 1 {
      var e1 := e.(tm := e.tm.(delack := 0), delayed := false, acknow := true);
      OutputKeeps(e1);
      OutputClosedForm(e1);
    }
  }

  /** Starting the count of a timed segment changes none of this. */
  lemma {:induction false} CountRttKeeps(e: Endpoint)
    requires Inv(e)
    ensures var e' := CountRtt(e);
      && Inv(e') && SendOnly(e, e') && e' == e.(tm := e.tm.(rtt := e'.tm.rtt))
  {
  }

  lemma {:induction false} OnTickKeeps(e: Endpoint, fired: bool)
    requires Inv(e) && (e.tm.rexmt == 1 ==> e.tm.shift < MAX_SHIFT)
    ensures var e' := OnTick(e, fired);
      Inv(e') && SendOnly(e, e') && Ticked(e, e', fired)
  {
    hide Inv, SendOnly, TickRexmt, TickDelack, CountRtt, Control;
    CountRttKeeps(e);
    var e1 := CountRtt(e);
    TickRexmtKeeps(e1, fired);
    var e2 := TickRexmt(e1, fired);
    SendOnlyTransitive(e, e1, e2);
    TickDelackKeeps(e2);
    SendOnlyTransitive(e, e2, TickDelack(e2));
  }
}
