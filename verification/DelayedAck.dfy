/** The delayed ACK in time: nothing received in order waits more than 20 ticks for its ACK. */
module DelayedAck {
  import opened Serial
  import opened Ring
  import opened Reassembly
  import opened Congestion
  import opened RttEstimator
  import opened WindowScale
  import opened Endpoint
  import opened Burst
  import opened EndpointInvariant
  import opened Run

  /** No segment has left between the two states. */
  predicate Silent(e: Endpoint, e': Endpoint) { |e'.hist.out| <= |e.hist.out| }

  /** The pending ACK and its timer are as they were. */
  predicate SameDelay(e: Endpoint, e': Endpoint) {
    e'.delayed == e.delayed && e'.tm.delack == e.tm.delack
  }

  /** A silent output call changed nothing, and no ACK was being forced. */
  lemma {:induction false} SilentOutput(e: Endpoint)
    requires Ready(e) && e.cc.cwnd >= 0 && Silent(e, Output(e))
    ensures !e.acknow && Output(e) == e
  {
    OutputClosedForm(e);
  }

  /** Whatever output sends takes a pending ACK along, so none stays pending. */
  lemma {:induction false} SentCancelsPending(e: Endpoint)
    requires Ready(e) && e.cc.cwnd >= 0 && !Silent(e, Output(e)) && (e.delayed || e.tm.delack == 0)
    ensures !Output(e).delayed && Output(e).tm.delack == 0
  {
    OutputClosedForm(e);
    hide Output;
  }

  /** A silent congestion event leaves the pending ACK alone. */
  lemma {:induction false} SilentCongest(e: Endpoint, ev: Event, fired: bool)
    requires Base(e) && !ev.Init? && Silent(e, Congest(e, ev, fired))
    ensures SameDelay(e, Congest(e, ev, fired))
  {
    var w := Flight(e.snd.una, e.snd.nxt, e.snd.max);
    ControlInRange(e.alg, e.cc, Input(ev, w, fired));
    var (c, act) := NextCc(e, ev, fired);
    if act == Burst {
      SilentOutput(e.(cc := c));
    }
  }

  lemma {:induction false} SilentAck(e: Endpoint, s: Segment, sample: Option<u32>, fired: bool)
    requires Inv(e) && Silent(e, HandleAck(e, s, sample, fired))
    ensures SameDelay(e, HandleAck(e, s, sample, fired))
  {
    hide Congest, FromField;
    var wnd := FromField(e.opt.scaled, e.opt.peerScale, s.win);
    if e.snd.una < s.ack <= e.snd.max {
      SlideKeeps(e, s.ack, wnd, sample);
      SlideDelay(e, s.ack, wnd, sample);
      SilentCongest(Slide(e, s.ack, wnd, sample), Ack(s.ack - e.snd.una), fired);
    } else if s.ack == e.snd.una && wnd <= e.snd.wnd && s.payload == [] && e.snd.una != e.snd.max {
      var dups := Min(e.dupacks + 1, 255);
      SilentCongest(e.(snd := e.snd.(wnd := wnd), dupacks := dups), DupAck(dups), fired);
    }
  }

  lemma {:induction false} SlideDelay(e: Endpoint, ack: int, wnd: u32, sample: Option<u32>)
    requires Ready(e) && e.snd.una < ack <= e.snd.max
    ensures SameDelay(e, Slide(e, ack, wnd, sample)) && Slide(e, ack, wnd, sample).hist == e.hist
  {
  }

  /** The one case in which a payload may wait for its ACK: accepted in order without filling a gap,
      outside a series of duplicate ACKs, and nothing pending yet. */
  predicate MayWait(e: Endpoint, o: Outcome) { o == Accepted(false) && e.dupacks == 0 && !e.delayed }

  /** A payload that is answered by nothing was refused for lack of space, or may wait and now does, for
      20 ticks: duplicates, early segments, segments that fill a gap, segments amid duplicate ACKs and a
      second in-order segment are all answered at once. */
  lemma {:induction false} SilentData(e: Endpoint, s: Segment)
    requires Inv(e) && s.payload != [] && Silent(e, HandleData(e, s))
    ensures var (e', o) := (HandleData(e, s), Arrive(e.rcv, s.pos, s.payload).1);
      || (o == NoSpace && e' == e)
      || (MayWait(e, o) && e'.delayed && e'.tm.delack == DELACK_TICKS)
  {
    ArriveConsistent(e.rcv, s.pos, s.payload);
    var (r, outcome) := Arrive(e.rcv, s.pos, s.payload);
    hide Output;
    match outcome
    case Duplicate =>
      SilentOutput(e.(acknow := true));
    case NoSpace =>
    case OutOfOrder =>
      SilentOutput(e.(rcv := r, acknow := true));
    case Accepted(gap) =>
      SilentOutput(Acknowledge(e.(rcv := r), gap));
  }

  /** Conversely a payload that may wait forces nothing: only new data can take its ACK along. */
  lemma {:induction false} WaitingForcesNothing(e: Endpoint, s: Segment)
    requires Inv(e) && s.payload != [] && MayWait(e, Arrive(e.rcv, s.pos, s.payload).1)
    ensures Silent(e, HandleData(e, s)) <==> HandleData(e, s).snd.nxt == e.snd.nxt
  {
    ArriveConsistent(e.rcv, s.pos, s.payload);
    var r := Arrive(e.rcv, s.pos, s.payload).0;
    var e1 := Acknowledge(e.(rcv := r), false);
    OutputClosedForm(e1);
    hide Output;
    if BurstBytes(e1.(acknow := false)) > 0 {
      WindowRespected(e1);
    }
  }

  /** The data half answers at once, covering all that has been received in order. */
  lemma {:induction false} DataAnswered(e: Endpoint, s: Segment)
    requires Inv(e) && s.payload != []
    requires var o := Arrive(e.rcv, s.pos, s.payload).1; !o.NoSpace? && !MayWait(e, o)
    ensures var e' := HandleData(e, s);
      |e'.hist.out| > |e.hist.out| && e'.hist.out[|e'.hist.out| - 1].ack == e'.rcv.nxt
  {
    var (r, o) := Arrive(e.rcv, s.pos, s.payload);
    ArriveConsistent(e.rcv, s.pos, s.payload);
    HandleDataKeeps(e, s);
    if Silent(e, HandleData(e, s)) {
      SilentData(e, s);
    }
    TakeKeeps(e, r);
    hide Output;
    match o
    case Duplicate =>
      LastCovers(e.(acknow := true));
    case OutOfOrder =>
      LastCovers(e.(rcv := r, acknow := true));
    case Accepted(gap) =>
      LastCovers(Acknowledge(e.(rcv := r), gap));
  }

  lemma {:induction false} LastCovers(e: Endpoint)
    requires Mid(e)
    ensures var e' := Output(e);
      |e'.hist.out| > |e.hist.out| ==> e'.hist.out[|e'.hist.out| - 1].ack == e'.rcv.nxt
  {
    OutputKeeps(e);
    var e' := Output(e);
    hide Output;
    if |e'.hist.out| > |e.hist.out| {
      assert Genuine(e'.hist.out[|e'.hist.out| - 1], e'.snd.stream, e'.rcv.nxt);
    }
  }

  /** A whole arrival: a payload that is not refused and may not wait is acknowledged before the lock is
      released, together with everything else received in order. */
  lemma {:induction false} AnsweredAtOnce(e: Endpoint, s: Segment, sample: Option<u32>, fired: bool)
    requires Inv(e) && s.payload != []
    requires var o := Arrive(e.rcv, s.pos, s.payload).1;
      || o.Duplicate? || o.OutOfOrder? || o == Accepted(true)
      || (o.Accepted? && e.dupacks > 0 && !(e.snd.una < s.ack <= e.snd.max))
    ensures var e' := OnSegment(e, s, sample, fired);
      |e'.hist.out| > |e.hist.out| && e'.hist.out[|e'.hist.out| - 1].ack == e'.rcv.nxt
  {
    hide HandleAck, HandleData;
    HandleAckKeeps(e, s, sample, fired);
    AckDupacks(e, s, sample, fired);
    DataAnswered(HandleAck(e, s, sample, fired), s);
  }

  /** With an ACK pending, an arrival that sends nothing keeps it pending, and what it carried was
      refused. */
  lemma {:induction false} SilentArrival(e: Endpoint, s: Segment, sample: Option<u32>, fired: bool)
    requires Inv(e) && e.delayed && Silent(e, OnSegment(e, s, sample, fired))
    ensures SameDelay(e, OnSegment(e, s, sample, fired))
    ensures s.payload != [] ==> Arrive(e.rcv, s.pos, s.payload).1 == NoSpace
  {
    HandleAckKeeps(e, s, sample, fired);
    var e1 := HandleAck(e, s, sample, fired);
    if s.payload == [] {
      OutputKeeps(e1);
      SilentAck(e, s, sample, fired);
      SilentOutput(e1);
    } else {
      HandleDataKeeps(e1, s);
      SilentAck(e, s, sample, fired);
      SilentData(e1, s);
    }
  }

  lemma {:induction false} SilentTick(e: Endpoint, fired: bool)
    requires Inv(e) && (e.tm.rexmt == 1 ==> e.tm.shift < MAX_SHIFT)
    requires e.delayed && Silent(e, OnTick(e, fired))
    ensures OnTick(e, fired).delayed && OnTick(e, fired).tm.delack == e.tm.delack - 1
  {
    var e1 := CountRtt(e);
    assert Inv(e1);
    TickRexmtKeeps(e1, fired);
    var e2 := TickRexmt(e1, fired);
    TickDelackKeeps(e2);
    SilentTickRexmt(e1, fired);
    if e2.tm.delack == 1 {
      SilentOutput(e2.(tm := e2.tm.(delack := 0), delayed := false, acknow := true));
    }
  }

  lemma {:induction false} SilentTickRexmt(e: Endpoint, fired: bool)
    requires Inv(e) && (e.tm.rexmt == 1 ==> e.tm.shift < MAX_SHIFT)
    requires Silent(e, TickRexmt(e, fired))
    ensures SameDelay(e, TickRexmt(e, fired))
  {
    if e.tm.rexmt == 1 {
      hide TickRexmt, Congest, Output;
      RolledBackKeeps(e);
      ExpiryIs(e, fired);
      SilentExpiry(e, RolledBack(e), Timeout(e.snd.nxt - e.snd.una), fired);
    }
  }

  /** The cut and the burst after a rollback. */
  lemma {:induction false} SilentExpiry(e: Endpoint, e1: Endpoint, ev: Event, fired: bool)
    requires Base(e1) && RecoveryOk(e1) && !e1.acknow && ev.Timeout? && SendOnly(e, e1)
    requires Silent(e, Output(Congest(e1, ev, fired)))
    ensures SameDelay(e1, Output(Congest(e1, ev, fired)))
  {
    CongestKeeps(e1, ev, fired);
    var e2 := Congest(e1, ev, fired);
    OutputKeeps(e2);
    SilentPair(e, e1, e2, Output(e2));
    SilentCongest(e1, ev, fired);
    SilentOutput(e2);
  }

  /** Nothing left in two consecutive steps if nothing left altogether. */
  lemma {:induction false} SilentPair(a: Endpoint, b: Endpoint, c: Endpoint, d: Endpoint)
    requires Silent(a, d) && SendOnly(a, b) && SendOnly(b, c) && SendOnly(c, d)
    ensures Silent(b, c) && Silent(c, d)
  {
  }

  /** With an ACK pending, a handler that sends nothing keeps it pending; only a tick moves its timer. */
  lemma {:induction false} SilentStep(e: Endpoint, st: Stimulus)
    requires Inv(e) && Possible(e, st) && e.delayed && Silent(e, React(e, st))
    ensures React(e, st).delayed
    ensures React(e, st).tm.delack == e.tm.delack - if st.Clock? then 1 else 0
  {
    match st
    case Arrival(s, sample, fired) =>
      SilentArrival(e, s, sample, fired);
    case AppSend(data) =>
      SilentOutput(e.(snd := e.snd.(stream := e.snd.stream + data)));
    case AppRead(len) =>
      var (r, bytes) := TakeUnread(e.rcv, len);
      var e1 := e.(rcv := r, hist := e.hist.(read := e.hist.read + bytes));
      if r.Free() >= MSS || |e.rcv.unread| == BUF_SIZE {
        SilentOutput(e1.(acknow := true));
      }
    case Clock(fired) =>
      SilentTick(e, fired);
  }

  function TickCount(sts: seq<Stimulus>): nat {
    if sts == [] then 0 else TickCount(sts[..|sts| - 1]) + if sts[|sts| - 1].Clock? then 1 else 0
  }

  lemma {:induction false} PendingCountsDown(e: Endpoint, sts: seq<Stimulus>)
    requires Inv(e) && Runs(e, sts) && e.delayed && Silent(e, Final(e, sts))
    ensures Final(e, sts).delayed && Final(e, sts).tm.delack == e.tm.delack - TickCount(sts)
  {
    if sts != [] {
      hide React, Inv;
      var init, last := sts[..|sts| - 1], sts[|sts| - 1];
      FinalKeeps(e, init);
      var e1 := Final(e, init);
      ReactKeeps(e1, last);
      PendingCountsDown(e, init);
      SilentStep(e1, last);
    }
  }

  /** Section 4.2.3.2 of RFC 1122 with 10 ms ticks: from any state with an ACK pending, whatever
      arrives and whatever the application does, a segment leaves by the twentieth tick, and it
      acknowledges everything that state had received in order. */
  lemma {:induction false} AckWithinTwentyTicks(e: Endpoint, sts: seq<Stimulus>)
    requires Inv(e) && Runs(e, sts) && e.delayed && TickCount(sts) >= DELACK_TICKS
    ensures var e' := Final(e, sts); |e'.hist.out| > |e.hist.out| && FreshAcks(e, e')
  {
    FinalKeeps(e, sts);
    if Silent(e, Final(e, sts)) {
      PendingCountsDown(e, sts);
    }
  }
}
