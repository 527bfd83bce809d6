/** What the tick counter measures: over every run, the ticks that have passed since the timed byte was
    last put on the wire by output. */
module TickSample {
  import opened Serial
  import opened Reassembly
  import opened Congestion
  import opened RttEstimator
  import opened WindowScale
  import opened Endpoint
  import opened Burst
  import opened EndpointInvariant
  import opened Run
  import opened Karn
  import opened DelayedAck

  /** The timing begins between the two states, with the byte that is then sent. */
  ghost predicate Starts(e: Endpoint, e': Endpoint) {
    e'.tm.rtt == 1 && Copies(e'.hist.out, e'.tm.rtseq) > Copies(e.hist.out, e'.tm.rtseq)
  }

  /** Between the two states segments may be sent, and the timing goes on, is given up, or begins. */
  ghost predicate Timed(e: Endpoint, e': Endpoint) {
    && e.hist.out <= e'.hist.out
    && (e'.tm.rtt == 0 || Starts(e, e') || (e'.tm.rtt == e.tm.rtt && e'.tm.rtseq == e.tm.rtseq))
  }

  lemma {:induction false} CopiesGrow(out: seq<Segment>, out': seq<Segment>, p: int)
    requires out <= out'
    ensures Copies(out', p) >= Copies(out, p)
  {
    CopiesAppend(out, out'[|out|..], p);
    assert out + out'[|out|..] == out';
  }

  lemma {:induction false} TimedTransitive(a: Endpoint, b: Endpoint, c: Endpoint)
    requires Timed(a, b) && Timed(b, c)
    ensures Timed(a, c)
  {
    hide Copies;
    CopiesGrow(a.hist.out, b.hist.out, c.tm.rtseq);
    CopiesGrow(b.hist.out, c.hist.out, c.tm.rtseq);
  }

  /** Nothing is sent, and the timing goes on or is given up. */
  lemma {:induction false} TimedQuietly(e: Endpoint, e': Endpoint)
    requires e'.hist.out == e.hist.out && (e'.tm.rtt == 0 || (e'.tm.rtt == e.tm.rtt && e'.tm.rtseq == e.tm.rtseq))
    ensures Timed(e, e')
  {
  }

  lemma {:induction false} OutputTimed(e: Endpoint)
    requires Ready(e) && e.cc.cwnd >= 0
    ensures Timed(e, Output(e)) && Output(e).cc == e.cc
  {
    hide Output, Copies;
    var e' := Output(e);
    OutputGrows(e);
    OutputTiming(e);
    OutputCopies(e, e'.tm.rtseq);
    OutputStarts(e);
  }

  lemma {:induction false} OutputGrows(e: Endpoint)
    requires Ready(e) && e.cc.cwnd >= 0
    ensures e.hist.out <= Output(e).hist.out
  {
    OutputClosedForm(e);
    hide Output;
  }

  lemma {:induction false} OutputStarts(e: Endpoint)
    requires Ready(e) && e.cc.cwnd >= 0
    ensures var t, t' := e.tm, Output(e).tm; t'.rtt == t.rtt || t'.rtt == 1
  {
    OutputClosedForm(e);
    hide Output;
  }

  lemma {:induction false} CongestTimed(e: Endpoint, ev: Event, fired: bool)
    requires Ready(e)
    ensures Timed(e, Congest(e, ev, fired)) && Congest(e, ev, fired).cc.cwnd >= 0
  {
    var (c, act) := NextCc(e, ev, fired);
    hide NextCc, Output, Copies;
    var e1 := e.(cc := c);
    if act == Burst {
      OutputTimed(e1);
    }
  }

  lemma {:induction false} AckTimed(e: Endpoint, s: Segment, sample: Option<u32>, fired: bool)
    requires Ready(e) && e.cc.cwnd >= 0
    ensures Timed(e, HandleAck(e, s, sample, fired)) && HandleAck(e, s, sample, fired).cc.cwnd >= 0
  {
    hide Congest, FromField, Timed;
    var wnd := FromField(e.opt.scaled, e.opt.peerScale, s.win);
    if Advances(e, s) {
      var e1, ev := Slide(e, s.ack, wnd, sample), Ack(s.ack - e.snd.una);
      TimedQuietly(e, e1);
      CongestTimed(e1, ev, fired);
      TimedTransitive(e, e1, Congest(e1, ev, fired));
    } else if Repeats(e, s) {
      var e1 := e.(snd := e.snd.(wnd := wnd), dupacks := Min(e.dupacks + 1, 255));
      TimedQuietly(e, e1);
      CongestTimed(e1, DupAck(e1.dupacks), fired);
      TimedTransitive(e, e1, Congest(e1, DupAck(e1.dupacks), fired));
    } else {
      TimedQuietly(e, HandleAck(e, s, sample, fired));
    }
  }

  /** A quiet change, then output. */
  lemma {:induction false} ThenOutput(e: Endpoint, e1: Endpoint)
    requires Ready(e1) && e1.cc.cwnd >= 0 && e1.hist.out == e.hist.out
    requires e1.tm.rtt == 0 || (e1.tm.rtt == e.tm.rtt && e1.tm.rtseq == e.tm.rtseq)
    ensures Timed(e, Output(e1))
  {
    hide Output, Timed;
    TimedQuietly(e, e1);
    OutputTimed(e1);
    TimedTransitive(e, e1, Output(e1));
  }

  lemma {:induction false} DataTimed(e: Endpoint, s: Segment)
    requires Ready(e) && e.cc.cwnd >= 0 && s.payload != []
    ensures Timed(e, HandleData(e, s))
  {
    hide Output, Timed;
    var (r, outcome) := Arrive(e.rcv, s.pos, s.payload);
    hide Arrive;
    match outcome
    case Duplicate =>
      ThenOutput(e, e.(acknow := true));
    case NoSpace =>
      TimedQuietly(e, e);
    case OutOfOrder =>
      ThenOutput(e, e.(rcv := r, acknow := true));
    case Accepted(gap) =>
      ThenOutput(e, Acknowledge(e.(rcv := r), gap));
  }

  lemma {:induction false} TimersTimed(e: Endpoint, fired: bool)
    requires Ready(e) && e.cc.cwnd >= 0 && (e.tm.rexmt == 1 ==> e.tm.shift < MAX_SHIFT)
    ensures Timed(e, TickDelack(TickRexmt(e, fired)))
  {
    hide Output, Congest, Timed;
    var e1 := TickRexmt(e, fired);
    if e.tm.rexmt == 1 {
      var e0, ev := e.(tm := e.tm.(rexmt := 0)), Timeout(e.snd.nxt - e.snd.una);
      TimedQuietly(e, RolledBack(e0));
      CongestTimed(RolledBack(e0), ev, fired);
      var e2 := Congest(RolledBack(e0), ev, fired);
      OutputTimed(e2);
      TimedTransitive(e, RolledBack(e0), e2);
      TimedTransitive(e, e2, e1);
    } else {
      TimedQuietly(e, e1);
    }
    DelackTimed(e1);
    TimedTransitive(e, e1, TickDelack(e1));
  }

  lemma {:induction false} DelackTimed(e: Endpoint)
    requires Ready(e) && e.cc.cwnd >= 0
    ensures Timed(e, TickDelack(e))
  {
    hide Output, Timed;
    if e.tm.delack == 1 {
      ThenOutput(e, e.(tm := e.tm.(delack := 0), delayed := false, acknow := true));
    } else {
      TimedQuietly(e, TickDelack(e));
    }
  }

  /** Every handler: the count goes up by one on a tick, before anything else; then it goes on, is given
      up, or begins at one with a byte that is sent. */
  lemma {:induction false} ReactTimed(e: Endpoint, st: Stimulus)
    requires Inv(e) && Possible(e, st)
    ensures Timed(if st.Clock? then OneTick(e) else e, React(e, st))
  {
    hide Output, HandleAck, HandleData, TickRexmt, TickDelack, Timed;
    match st
    case Arrival(s, sample, fired) =>
      AckTimed(e, s, sample, fired);
      var e1 := HandleAck(e, s, sample, fired);
      if s.payload == [] {
        OutputTimed(e1);
        TimedTransitive(e, e1, Output(e1));
      } else {
        DataTimed(e1, s);
        TimedTransitive(e, e1, HandleData(e1, s));
      }
    case AppSend(data) =>
      ThenOutput(e, e.(snd := e.snd.(stream := e.snd.stream + data)));
    case AppRead(len) =>
      var (r, bytes) := TakeUnread(e.rcv, len);
      var e1 := e.(rcv := r, hist := e.hist.(read := e.hist.read + bytes));
      TimedQuietly(e, e1);
      ThenOutput(e, e1.(acknow := true));
    case Clock(fired) =>
      assert CountRtt(e) == OneTick(e);
      TimersTimed(CountRtt(e), fired);
  }

  /** One more tick on a running count. */
  function OneTick(e: Endpoint): Endpoint {
    if e.tm.rtt > 0 then e.(tm := e.tm.(rtt := Wrap(e.tm.rtt + 1))) else e
  }

  /** Stimulus `k` put the byte at `p` on the wire, and `ticks` ticks have passed since. */
  ghost predicate SentAt(e: Endpoint, sts: seq<Stimulus>, k: nat, p: int, ticks: nat)
    requires Ready(e)
  {
    && k < |sts| && Runs(e, sts[..k]) && Runs(e, sts[..k + 1])
    && Copies(Final(e, sts[..k + 1]).hist.out, p) > Copies(Final(e, sts[..k]).hist.out, p)
    && ticks == TickCount(sts[k + 1..])
  }

  lemma {:induction false} SentNow(e: Endpoint, sts: seq<Stimulus>)
    requires Ready(e) && sts != [] && Runs(e, sts) && Runs(e, sts[..|sts| - 1])
    requires Starts(Final(e, sts[..|sts| - 1]), Final(e, sts))
    ensures SentAt(e, sts, |sts| - 1, Final(e, sts).tm.rtseq, 0)
  {
    hide Runs, Final, Copies;
    assert sts[..|sts|] == sts && sts[|sts|..] == [];
  }

  lemma {:induction false} SentBefore(e: Endpoint, sts: seq<Stimulus>, k: nat, p: int, ticks: nat)
    requires Ready(e) && sts != [] && SentAt(e, sts[..|sts| - 1], k, p, ticks)
    ensures SentAt(e, sts, k, p, ticks + if sts[|sts| - 1].Clock? then 1 else 0)
  {
    hide Runs, Final, Copies;
    var n := |sts| - 1;
    assert sts[..n][..k] == sts[..k] && sts[..n][..k + 1] == sts[..k + 1];
    assert sts[k + 1..][..n - k - 1] == sts[..n][k + 1..] && sts[k + 1..][n - k - 1] == sts[n];
  }

  /** Whenever a byte is being timed, the run has a step that put this byte on the wire, and the count is
      one more than the ticks since then. */
  lemma {:induction false} CountIsElapsed(alg: Algorithm, opt: Options, wnd: u32, sts: seq<Stimulus>)
    returns (k: nat)
    requires Runs(Established(alg, opt, wnd), sts) && TickCount(sts) < TWO32 - 1
    requires Final(Established(alg, opt, wnd), sts).tm.rtt != 0
    ensures var e := Established(alg, opt, wnd); var t := Final(e, sts).tm;
      1 <= t.rtt <= 1 + TickCount(sts) && SentAt(e, sts, k, t.rtseq, t.rtt - 1)
    decreases |sts|
  {
    var e := Established(alg, opt, wnd);
    EstablishedInv(alg, opt, wnd);
    hide Inv, React, Copies, SentAt, Starts;
    assert sts != [];
    var n := |sts| - 1;
    RunsPrefix(e, sts, n);
    FinalKeeps(e, sts[..n]);
    var e1, e' := Final(e, sts[..n]), Final(e, sts);
    ReactTimed(e1, sts[n]);
    if Starts(e1, e') || Starts(OneTick(e1), e') {
      StartsFrame(e1, e');
      SentNow(e, sts);
      k := n;
    } else {
      k := CountIsElapsed(alg, opt, wnd, sts[..n]);
      SentBefore(e, sts, k, e1.tm.rtseq, e1.tm.rtt - 1);
    }
  }

  lemma {:induction false} StartsFrame(e: Endpoint, e': Endpoint)
    requires Starts(e, e') || Starts(OneTick(e), e')
    ensures Starts(e, e') && e'.tm.rtt == 1
  {
  }

  /** What a segment measures: with timestamps the echoed one, otherwise the running count if the timed byte
      is acknowledged. */
  function SampleTaken(e: Endpoint, s: Segment, sample: Option<u32>): Option<u32> {
    if !Advances(e, s) then None
    else if e.opt.timestamps then sample
    else if e.tm.rtt != 0 && s.ack > e.tm.rtseq then Some(Wrap((e.tm.rtt - 1) * 10_000))
    else None
  }

  /** The estimate moves exactly by the sample taken, and then the count stops. */
  lemma {:induction false} AckEstimates(e: Endpoint, s: Segment, sample: Option<u32>, fired: bool)
    requires Inv(e)
    ensures var t := HandleAck(e, s, sample, fired).tm;
      match SampleTaken(e, s, sample)
      case None => t.est == e.tm.est
      case Some(us) => t.est == Sample(e.tm.est, us) && t.rtt == 0
  {
    assert Ready(e);
    hide FromField, Congest, Sample, Inv, Slide;
    var wnd := FromField(e.opt.scaled, e.opt.peerScale, s.win);
    if Advances(e, s) {
      SlideEstimates(e, s, wnd, sample);
      AckKeepsTimers(Slide(e, s.ack, wnd, sample), s.ack - e.snd.una, fired);
    } else if Repeats(e, s) {
      var e1 := e.(snd := e.snd.(wnd := wnd), dupacks := Min(e.dupacks + 1, 255));
      CongestKeepsEstimate(e1, DupAck(e1.dupacks), fired);
    }
  }

  lemma {:induction false} SlideEstimates(e: Endpoint, s: Segment, wnd: u32, sample: Option<u32>)
    requires Ready(e) && Advances(e, s)
    ensures var t := Slide(e, s.ack, wnd, sample).tm;
      match SampleTaken(e, s, sample)
      case None => t.est == e.tm.est
      case Some(us) => t.est == Sample(e.tm.est, us) && t.rtt == 0
  {
    hide Sample;
  }

  lemma {:induction false} AckKeepsTimers(e: Endpoint, acked: nat, fired: bool)
    requires Ready(e)
    ensures var t := Congest(e, Ack(acked), fired).tm; t.est == e.tm.est && (e.tm.rtt == 0 ==> t.rtt == 0)
  {
  }

  lemma {:induction false} CongestKeepsEstimate(e: Endpoint, ev: Event, fired: bool)
    requires Ready(e)
    ensures Congest(e, ev, fired).tm.est == e.tm.est
  {
    var (c, act) := NextCc(e, ev, fired);
    hide NextCc;
    if act == Burst {
      OutputClosedForm(e.(cc := c));
    }
  }

  /** A tick sample is the time from sending the byte to its acknowledgement, in steps of 10 ms. */
  lemma {:induction false} SampleIsElapsed(t: Timers, ack: int, ticks: nat)
    requires t.rtt == 1 + ticks && ack > t.rtseq && ticks * 10_000 < TWO32
    ensures Measured(t, false, ack, None) == Some(ticks * 10_000)
  {
  }
}
