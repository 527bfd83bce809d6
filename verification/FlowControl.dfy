/** Flow control: what every handler may do to the advertised window and to snd_max, what the sender
    can rely on over whole runs of two endpoints, and how it can stall. */
module FlowControl {
  import opened Serial
  import opened Ring
  import opened Reassembly
  import opened Congestion
  import opened RttEstimator
  import opened WindowScale
  import opened Endpoint
  import opened Burst
  import opened EndpointInvariant
  import opened Run

  /** The first position past what the receive buffer can hold. */
  function Edge(r: Receive): int { r.ReadPos() + BUF_SIZE }

  /** What this side's header field means to a peer that knows its scale. */
  function Seen(e: Endpoint, win: u16): u32 { FromField(e.opt.scaled, RCV_SCALE, win) }

  /** No segment sent so far promises space past the edge. */
  ghost predicate Advertised(e: Endpoint) {
    forall i :: 0 <= i < |e.hist.out| ==> e.hist.out[i].ack + Seen(e, e.hist.out[i].win) <= Edge(e.rcv)
  }

  /** Segments may have been sent: they advertise the present window, and max has not been taken past
      the window the peer has offered. */
  ghost predicate Emits(e: Endpoint, e': Endpoint) {
    && e'.opt == e.opt && e'.rcv == e.rcv
    && e'.snd.una == e.snd.una && e'.snd.wnd == e.snd.wnd
    && e.snd.max <= e'.snd.max <= Max(e.snd.max, e.snd.una + e.snd.wnd)
    && e.hist.out <= e'.hist.out
    && forall i :: |e.hist.out| <= i < |e'.hist.out| ==>
         e'.hist.out[i].ack == e.rcv.nxt && e'.hist.out[i].win == Window(e)
  }

  lemma {:induction false} EmitsTransitive(a: Endpoint, b: Endpoint, c: Endpoint)
    requires Emits(a, b) && Emits(b, c)
    ensures Emits(a, c)
  {
  }

  /** What is advertised now lies within the edge. */
  lemma {:induction false} EmitsAdvertised(e: Endpoint, e': Endpoint)
    requires Advertised(e) && Emits(e, e') && Consistent(e.rcv)
    ensures Advertised(e')
  {
    AdvertisedWindow(e.opt.scaled, e.rcv.Free());
  }

  /** The same segments and at least the same edge. */
  lemma {:induction false} AdvertisedFrame(e: Endpoint, e': Endpoint)
    requires Advertised(e) && e'.opt == e.opt && e'.hist.out == e.hist.out && Edge(e'.rcv) >= Edge(e.rcv)
    ensures Advertised(e')
  {
  }

  /** Every segment sent announces all the space that is free at that moment, up to one unit of the
      scale, or up to 65535 bytes without scaling. */
  lemma {:induction false} EmitsAnnounce(e: Endpoint, e': Endpoint, i: nat)
    requires Emits(e, e') && Consistent(e.rcv) && |e.hist.out| <= i < |e'.hist.out|
    ensures Announced(e, e'.hist.out[i])
  {
    hide FromField, ToField, Wrap, Count;
    FieldAnnounces(e.opt.scaled, e.rcv.Free());
  }

  lemma {:induction false} FieldAnnounces(scaled: bool, free: int)
    requires 0 <= free <= BUF_SIZE
    ensures var seen := FromField(scaled, RCV_SCALE, ToField(scaled, RCV_SCALE, Wrap(free)));
      if scaled then free - 32 < seen <= free else seen == Min(free, 0xFFFF)
  {
    hide FromField, ToField;
    AdvertisedWindow(scaled, free);
    Pow2Values();
  }

  predicate Announced(e: Endpoint, s: Segment) {
    var free, seen := e.rcv.Free(), Seen(e, s.win);
    s.ack == e.rcv.nxt && if e.opt.scaled then free - 32 < seen <= free else seen == Min(free, 0xFFFF)
  }

  // ---------- the parts of a handler ----------

  lemma {:induction false} BurstEmits(e: Endpoint, force: bool)
    requires Ready(e) && e.cc.cwnd >= 0
    ensures Emits(e, Burst.Burst(e, force))
  {
    var b := BurstBytes(e);
    hide BurstBytes, BurstTimers;
    if b > 0 {
      PiecesCarry(e, e.snd.nxt, e.snd.nxt + b);
    }
  }

  lemma {:induction false} PiecesCarry(e: Endpoint, lo: int, hi: int)
    requires 0 <= lo && hi <= |e.snd.stream|
    ensures forall i :: 0 <= i < |Pieces(e, lo, hi)| ==>
      Pieces(e, lo, hi)[i].ack == e.rcv.nxt && Pieces(e, lo, hi)[i].win == Window(e)
    decreases hi - lo
  {
    if lo < hi {
      PiecesCarry(e, Min(lo + MSS, hi), hi);
    }
  }

  lemma {:induction false} OutputEmits(e: Endpoint)
    requires Ready(e) && e.cc.cwnd >= 0
    ensures Emits(e, Output(e)) && Output(e).cc == e.cc
  {
    OutputClosedForm(e);
    BurstEmits(e.(acknow := false), e.acknow);
  }

  lemma {:induction false} PerformEmits(e: Endpoint, act: Act)
    requires Ready(e) && e.cc.cwnd >= 0
    ensures Emits(e, Perform(e, act)) && Perform(e, act).cc == e.cc
  {
    hide Output;
    if act == Burst {
      OutputEmits(e);
    }
  }

  lemma {:induction false} CongestEmits(e: Endpoint, ev: Event, fired: bool)
    requires Ready(e)
    ensures Emits(e, Congest(e, ev, fired)) && Congest(e, ev, fired).cc.cwnd >= 0
  {
    var (c, act) := NextCc(e, ev, fired);
    hide NextCc, Perform;
    PerformEmits(e.(cc := c), act);
  }

  // ---------- acknowledgements ----------

  /** una and wnd after a segment: it counts if it acknowledges new data, opens the window at una, or is
      a duplicate acknowledgement. */
  function Offer(e: Endpoint, s: Segment): (int, u32) {
    var wnd := FromField(e.opt.scaled, e.opt.peerScale, s.win);
    if e.snd.una < s.ack <= e.snd.max then (s.ack, wnd)
    else if s.ack == e.snd.una && (wnd > e.snd.wnd || (s.payload == [] && e.snd.una != e.snd.max)) then (s.ack, wnd)
    else (e.snd.una, e.snd.wnd)
  }

  /** The same state with una and wnd as offered, apart from what flow control does not look at. */
  ghost predicate Takes(e: Endpoint, e': Endpoint, s: Segment) {
    && e'.opt == e.opt && e'.rcv == e.rcv && e'.hist == e.hist && e'.snd.max == e.snd.max
    && (e'.snd.una, e'.snd.wnd) == Offer(e, s)
  }

  lemma {:induction false} SlideTakes(e: Endpoint, ack: int, wnd: u32, sample: Option<u32>)
    requires Ready(e) && e.snd.una < ack <= e.snd.max
    ensures var e' := Slide(e, ack, wnd, sample);
      && e'.opt == e.opt && e'.rcv == e.rcv && e'.hist == e.hist && e'.snd.max == e.snd.max
      && e'.snd.una == ack && e'.snd.wnd == wnd
  {
  }

  /** Acknowledgement processing: take the offer, then send. */
  lemma {:induction false} AckEmits(e: Endpoint, s: Segment, sample: Option<u32>, fired: bool) returns (e1: Endpoint)
    requires Ready(e) && e.cc.cwnd >= 0
    ensures Takes(e, e1, s) && Emits(e1, HandleAck(e, s, sample, fired))
    ensures HandleAck(e, s, sample, fired).cc.cwnd >= 0
  {
    hide Congest, FromField, Slide, Emits;
    var wnd := FromField(e.opt.scaled, e.opt.peerScale, s.win);
    if e.snd.una < s.ack <= e.snd.max {
      e1 := Slide(e, s.ack, wnd, sample);
      SlideTakes(e, s.ack, wnd, sample);
      CongestEmits(e1, Ack(s.ack - e.snd.una), fired);
    } else if s.ack == e.snd.una && wnd <= e.snd.wnd && s.payload == [] && e.snd.una != e.snd.max {
      e1 := e.(snd := e.snd.(wnd := wnd), dupacks := Min(e.dupacks + 1, 255));
      CongestEmits(e1, DupAck(e1.dupacks), fired);
    } else {
      e1 := HandleAck(e, s, sample, fired);
      Idle(e1);
    }
  }

  lemma {:induction false} DataEmits(e: Endpoint, s: Segment)
    requires Ready(e) && e.cc.cwnd >= 0 && s.payload != []
    ensures Emits(e.(rcv := Arrive(e.rcv, s.pos, s.payload).0), HandleData(e, s))
  {
    hide Output;
    var (r, outcome) := Arrive(e.rcv, s.pos, s.payload);
    hide Arrive;
    match outcome
    case Duplicate =>
      OutputEmits(e.(acknow := true));
    case NoSpace =>
    case OutOfOrder =>
      OutputEmits(e.(rcv := r, acknow := true));
    case Accepted(gap) =>
      OutputEmits(Acknowledge(e.(rcv := r), gap));
  }

  // ---------- whole handlers ----------

  /** una and wnd change as a segment offers, and max goes no further than una + wnd. */
  ghost predicate Moved(e: Endpoint, e': Endpoint, offer: (int, u32)) {
    && e'.opt == e.opt
    && (e'.snd.una, e'.snd.wnd) == offer
    && e.snd.max <= e'.snd.max <= Max(e.snd.max, offer.0 + offer.1)
    && Edge(e'.rcv) >= Edge(e.rcv)
    && (Advertised(e) ==> Advertised(e'))
  }

  /** What a stimulus offers. */
  function OfferOf(e: Endpoint, st: Stimulus): (int, u32) {
    if st.Arrival? then Offer(e, st.s) else (e.snd.una, e.snd.wnd)
  }

  lemma {:induction false} EmitsMoved(e: Endpoint, e1: Endpoint, e': Endpoint, offer: (int, u32))
    requires e1.opt == e.opt && e1.hist.out == e.hist.out && e1.snd.max == e.snd.max
    requires (e1.snd.una, e1.snd.wnd) == offer && Edge(e1.rcv) >= Edge(e.rcv)
    requires Emits(e1, e') && Consistent(e1.rcv)
    ensures Moved(e, e', offer)
  {
    if Advertised(e) {
      AdvertisedFrame(e, e1);
      EmitsAdvertised(e1, e');
    }
  }

  lemma {:induction false} MovedThenEmits(e: Endpoint, e1: Endpoint, e2: Endpoint, e': Endpoint, offer: (int, u32))
    requires Moved(e, e1, offer) && e2 == e1.(rcv := e2.rcv) && Edge(e2.rcv) >= Edge(e1.rcv)
    requires Emits(e2, e') && Consistent(e2.rcv)
    ensures Moved(e, e', offer)
  {
    if Advertised(e) {
      AdvertisedFrame(e1, e2);
      EmitsAdvertised(e2, e');
    }
  }

  lemma {:induction false} ArrivalMoves(e: Endpoint, s: Segment, sample: Option<u32>, fired: bool)
    requires Inv(e)
    ensures Moved(e, OnSegment(e, s, sample, fired), Offer(e, s))
  {
    hide HandleAck, HandleData, Output, Emits, Moved;
    var e0 := AckEmits(e, s, sample, fired);
    var e1 := HandleAck(e, s, sample, fired);
    HandleAckKeeps(e, s, sample, fired);
    EmitsMoved(e, e0, e1, Offer(e, s));
    if s.payload == [] {
      OutputEmits(e1);
      MovedThenEmits(e, e1, e1, Output(e1), Offer(e, s));
    } else {
      var e2 := e1.(rcv := Arrive(e1.rcv, s.pos, s.payload).0);
      ArriveConsistent(e1.rcv, s.pos, s.payload);
      DataEmits(e1, s);
      MovedThenEmits(e, e1, e2, HandleData(e1, s), Offer(e, s));
    }
  }

  lemma {:induction false} SendMoves(e: Endpoint, data: Bytes)
    requires Inv(e) && Possible(e, AppSend(data))
    ensures Moved(e, OnSend(e, data), (e.snd.una, e.snd.wnd))
  {
    hide Output, Emits, Moved;
    var e1 := e.(snd := e.snd.(stream := e.snd.stream + data));
    OutputEmits(e1);
    EmitsMoved(e, e1, Output(e1), (e.snd.una, e.snd.wnd));
  }

  lemma {:induction false} Idle(e: Endpoint)
    ensures Emits(e, e)
  {
  }

  lemma {:induction false} ReadMoves(e: Endpoint, len: nat)
    requires Inv(e)
    ensures Moved(e, OnRead(e, len), (e.snd.una, e.snd.wnd))
  {
    hide Output, Emits, Moved;
    var (r, bytes) := TakeUnread(e.rcv, len);
    var e1 := e.(rcv := r, hist := e.hist.(read := e.hist.read + bytes));
    var e2 := e1.(acknow := true);
    OutputEmits(e2);
    EmitsMoved(e, e2, Output(e2), (e.snd.una, e.snd.wnd));
    Idle(e1);
    EmitsMoved(e, e1, e1, (e.snd.una, e.snd.wnd));
  }

  /** A read announces the freed space at once if at least one MSS is free then, or if the buffer had been
      full; otherwise it sends nothing, so the window never opens in small steps. */
  lemma {:induction false} ReadAnnounces(e: Endpoint, len: nat)
    requires Inv(e)
    ensures var e' := OnRead(e, len);
      if e'.rcv.Free() >= MSS || |e.rcv.unread| == BUF_SIZE then
        |e'.hist.out| > |e.hist.out| && Announced(e', e'.hist.out[|e'.hist.out| - 1])
      else
        e'.hist.out == e.hist.out && e'.snd == e.snd && e'.tm == e.tm
  {
    OnReadKeeps(e, len);
    var (r, bytes) := TakeUnread(e.rcv, len);
    var e1 := e.(rcv := r, hist := e.hist.(read := e.hist.read + bytes));
    if r.Free() >= MSS || |e.rcv.unread| == BUF_SIZE {
      var e2 := e1.(acknow := true);
      OutputEmits(e2);
      OutputClosedForm(e2);
      hide Output, Inv, Announced, Window;
      EmitsAnnounce(e2, Output(e2), |Output(e2).hist.out| - 1);
      AnnouncedFrame(e2, Output(e2), Output(e2).hist.out[|Output(e2).hist.out| - 1]);
    }
  }

  lemma {:induction false} AnnouncedFrame(e: Endpoint, e': Endpoint, s: Segment)
    requires Announced(e, s) && e'.rcv == e.rcv && e'.opt == e.opt
    ensures Announced(e', s)
  {
  }

  lemma {:induction false} RexmtEmits(e: Endpoint, fired: bool)
    requires Ready(e) && e.cc.cwnd >= 0 && (e.tm.rexmt == 1 ==> e.tm.shift < MAX_SHIFT)
    ensures Emits(e, TickRexmt(e, fired)) && TickRexmt(e, fired).cc.cwnd >= 0
  {
    hide Output, Congest;
    if e.tm.rexmt == 1 {
      var e1 := e.(tm := e.tm.(rexmt := 0));
      var e2, ev := RolledBack(e1), Timeout(e.snd.nxt - e.snd.una);
      CongestEmits(e2, ev, fired);
      OutputEmits(Congest(e2, ev, fired));
      EmitsTransitive(e2, Congest(e2, ev, fired), Output(Congest(e2, ev, fired)));
    }
  }

  lemma {:induction false} DelackEmits(e: Endpoint)
    requires Ready(e) && e.cc.cwnd >= 0
    ensures Emits(e, TickDelack(e))
  {
    hide Output;
    if e.tm.delack == 1 {
      OutputEmits(e.(tm := e.tm.(delack := 0), delayed := false, acknow := true));
    }
  }

  lemma {:induction false} TickMoves(e: Endpoint, fired: bool)
    requires Inv(e) && Possible(e, Clock(fired))
    ensures Moved(e, OnTick(e, fired), (e.snd.una, e.snd.wnd))
  {
    hide TickRexmt, TickDelack, Emits, Moved;
    var e1 := CountRtt(e);
    RexmtEmits(e1, fired);
    var e2 := TickRexmt(e1, fired);
    DelackEmits(e2);
    EmitsTransitive(e1, e2, TickDelack(e2));
    EmitsMoved(e, e1, TickDelack(e2), (e.snd.una, e.snd.wnd));
  }

  /** Every handler, on any stimulus. */
  lemma {:induction false} ReactMoves(e: Endpoint, st: Stimulus)
    requires Inv(e) && Possible(e, st)
    ensures Moved(e, React(e, st), OfferOf(e, st))
  {
    hide OnSegment, OnSend, OnRead, OnTick, Moved;
    match st
    case Arrival(s, sample, fired) =>
      ArrivalMoves(e, s, sample, fired);
    case AppSend(data) =>
      SendMoves(e, data);
    case AppRead(len) =>
      ReadMoves(e, len);
    case Clock(fired) =>
      TickMoves(e, fired);
  }

  // ---------- the stall ----------

  /** Nothing that arrives acknowledges anything this side believes to have sent. */
  predicate Ignored(sts: seq<Stimulus>, max: int) {
    forall i :: 0 <= i < |sts| && sts[i].Arrival? ==> sts[i].s.ack > max
  }

  /** With the offered window used up, acknowledgements past snd_max are ignored together with the
      windows they carry, so una, max and wnd never change again, whatever else happens. */
  lemma {:induction false} StalledForGood(e: Endpoint, sts: seq<Stimulus>)
    requires Inv(e) && e.snd.una + e.snd.wnd <= e.snd.max
    requires Runs(e, sts) && Ignored(sts, e.snd.max)
    ensures var e' := Final(e, sts);
      e'.snd.una == e.snd.una && e'.snd.max == e.snd.max && e'.snd.wnd == e.snd.wnd
  {
    if sts != [] {
      hide React, Inv;
      var init, last := sts[..|sts| - 1], sts[|sts| - 1];
      StalledForGood(e, init);
      FinalKeeps(e, init);
      SenderStands(Final(e, init), last);
    }
  }

  lemma {:induction false} SenderStands(e: Endpoint, st: Stimulus)
    requires Inv(e) && Possible(e, st) && e.snd.una + e.snd.wnd <= e.snd.max
    requires st.Arrival? ==> st.s.ack > e.snd.max
    ensures var e' := React(e, st);
      e'.snd.una == e.snd.una && e'.snd.max == e.snd.max && e'.snd.wnd == e.snd.wnd
  {
    hide React;
    ReactMoves(e, st);
  }
}
