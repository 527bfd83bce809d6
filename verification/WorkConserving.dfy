/** The sender never sits on data it may send: at every lock release nothing more may go out, except
    after an arrival whose payload was refused for lack of space. */
module WorkConserving {
  import opened Serial
  import opened Reassembly
  import opened Congestion
  import opened RttEstimator
  import opened Endpoint
  import opened Burst
  import opened EndpointInvariant
  import opened Run
  import opened Backoff

  /** Output would send no data now: windows, buffer or Nagle forbid it. */
  predicate Idle(e: Endpoint)
    requires Ready(e)
  {
    Chunk(e) == 0
  }

  /** Idle in terms of the windows and the send buffer. */
  lemma {:induction false} IdleMeans(e: Endpoint)
    requires Ready(e) && e.cc.cwnd >= 0
    ensures Idle(e) <==>
      || e.snd.nxt == |e.snd.stream|
      || Min(e.snd.wnd, e.cc.cwnd) <= e.snd.nxt - e.snd.una
      || (e.snd.nxt > e.snd.una && Quota(e) < MSS)
  {
  }

  lemma {:induction false} OutputIdles(e: Endpoint)
    requires Ready(e) && e.cc.cwnd >= 0
    ensures Idle(Output(e))
  {
    var e1 := Output(e);
    OutputClosedForm(e);
    hide Output;
    WindowRespected(e1);
    OutputIdempotent(e);
    ChunkIsFirstPiece(e1);
  }

  /** Idleness depends on the sender's variables alone. */
  lemma {:induction false} IdleFrame(e: Endpoint, e': Endpoint)
    requires Ready(e) && Ready(e') && e'.snd == e.snd && e'.cc == e.cc
    ensures Idle(e') == Idle(e)
  {
  }

  /** The payload of this arrival is refused for lack of space. */
  predicate Refused(e: Endpoint, st: Stimulus) {
    st.Arrival? && st.s.payload != [] && Arrive(e.rcv, st.s.pos, st.s.payload).1 == NoSpace
  }

  lemma {:induction false} ArrivalIdles(e: Endpoint, s: Segment, sample: Option<u32>, fired: bool)
    requires Inv(e) && !Refused(e, Arrival(s, sample, fired))
    ensures Idle(OnSegment(e, s, sample, fired))
  {
    hide HandleAck, Output, Chunk;
    HandleAckKeeps(e, s, sample, fired);
    var e1 := HandleAck(e, s, sample, fired);
    if s.payload == [] {
      OutputIdles(e1);
    } else {
      var (r, outcome) := Arrive(e1.rcv, s.pos, s.payload);
      hide Arrive;
      match outcome
      case Duplicate =>
        OutputIdles(e1.(acknow := true));
      case OutOfOrder =>
        OutputIdles(e1.(rcv := r, acknow := true));
      case Accepted(gap) =>
        OutputIdles(Acknowledge(e1.(rcv := r), gap));
    }
  }

  lemma {:induction false} TickIdles(e: Endpoint, fired: bool)
    requires Inv(e) && Idle(e) && (e.tm.rexmt == 1 ==> e.tm.shift < MAX_SHIFT)
    ensures Idle(OnTick(e, fired))
  {
    hide Output, Chunk;
    CountRttKeeps(e);
    var e1 := CountRtt(e);
    IdleFrame(e, e1);
    RexmtIdles(e1, fired);
    TickRexmtKeeps(e1, fired);
    var e2 := TickRexmt(e1, fired);
    hide TickRexmt;
    if e2.tm.delack == 1 {
      OutputIdles(e2.(tm := e2.tm.(delack := 0), delayed := false, acknow := true));
    } else {
      IdleFrame(e2, TickDelack(e2));
    }
  }

  lemma {:induction false} RexmtIdles(e: Endpoint, fired: bool)
    requires Inv(e) && Idle(e) && (e.tm.rexmt == 1 ==> e.tm.shift < MAX_SHIFT)
    ensures Idle(TickRexmt(e, fired))
  {
    hide Output, Chunk, Congest;
    if e.tm.rexmt == 1 {
      hide TickRexmt;
      RolledBackKeeps(e);
      ExpiryIs(e, fired);
      var e1, ev := RolledBack(e), Timeout(e.snd.nxt - e.snd.una);
      CongestKeeps(e1, ev, fired);
      OutputIdles(Congest(e1, ev, fired));
    } else {
      IdleFrame(e, TickRexmt(e, fired));
    }
  }

  /** Every handler leaves the sender idle, unless it refused a payload. */
  lemma {:induction false} ReactIdles(e: Endpoint, st: Stimulus)
    requires Inv(e) && Possible(e, st) && Idle(e) && !Refused(e, st)
    ensures Idle(React(e, st))
  {
    hide OnSegment, OnTick, Output, Chunk;
    match st
    case Arrival(s, sample, fired) =>
      ArrivalIdles(e, s, sample, fired);
    case AppSend(data) =>
      OutputIdles(e.(snd := e.snd.(stream := e.snd.stream + data)));
    case AppRead(len) =>
      var (r, bytes) := TakeUnread(e.rcv, len);
      var e1 := e.(rcv := r, hist := e.hist.(read := e.hist.read + bytes));
      IdleFrame(e, e1);
      OutputIdles(e1.(acknow := true));
    case Clock(fired) =>
      TickIdles(e, fired);
  }

  /** In every run in which no payload is refused, the sender is idle at every lock release: whatever the
      windows, the buffer and Nagle allow has been sent. */
  lemma {:induction false} IdleInRuns(alg: Algorithm, opt: Options, wnd: u32, sts: seq<Stimulus>)
    requires Runs(Established(alg, opt, wnd), sts)
    requires forall k :: 0 <= k < |sts| ==> !Refused(Before(Established(alg, opt, wnd), sts, k), sts[k])
    ensures Idle(Final(Established(alg, opt, wnd), sts))
    decreases |sts|
  {
    var e := Established(alg, opt, wnd);
    EstablishedInv(alg, opt, wnd);
    if sts != [] {
      var init, last := sts[..|sts| - 1], sts[|sts| - 1];
      RunsPrefix(e, sts, |init|);
      hide Inv, React, Refused, Idle;
      forall k | 0 <= k < |init|
        ensures !Refused(Before(e, init, k), init[k])
      {
        assert init[..k] == sts[..k];
        assert !Refused(Before(e, sts, k), sts[k]);
      }
      IdleInRuns(alg, opt, wnd, init);
      FinalKeeps(e, init);
      assert !Refused(Before(e, sts, |init|), sts[|init|]);
      ReactIdles(Final(e, init), last);
    }
  }
}
