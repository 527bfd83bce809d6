/** Retransmission on timeout: what an expiration sends, how the timer is set, and that outstanding data
    is sent again in time. */
module Retransmission {
  import opened Serial
  import opened Reassembly
  import opened Congestion
  import opened RttEstimator
  import opened WindowScale
  import opened Endpoint
  import opened Burst
  import opened EndpointInvariant
  import opened Run
  import opened FlowControl
  import opened Backoff

  // ---------- what an expiration sends ----------

  /** The bytes at una that one segment and the peer's window allow. */
  function HeadLength(s: Send): int { Min(Min(|s.stream| - s.una, s.wnd), MSS) }

  /** The segment that carries them. */
  function HeadSegment(e: Endpoint): Segment
    requires 0 <= e.snd.una <= |e.snd.stream|
  {
    Segment(e.snd.una, e.rcv.nxt, Window(e), e.snd.stream[e.snd.una..e.snd.una + HeadLength(e.snd)])
  }

  /** A timeout changes the congestion variables only, and leaves a window of one segment. */
  lemma {:induction false} TimeoutActs(e: Endpoint, flight: nat, fired: bool)
    requires Ready(e) && InRange(e.cc) && SenderOk(e.snd)
    ensures var e' := Congest(e, Timeout(flight), fired); e' == e.(cc := e'.cc) && e'.cc.cwnd == MSS
  {
    var w := Flight(e.snd.una, e.snd.nxt, e.snd.max);
    TimeoutNeverRaises(e.alg, e.cc, Input(Timeout(flight), w, fired));
  }

  /** Output after a rollback to una with a window of one segment sends the head and nothing else. */
  lemma {:induction false} HeadSent(e: Endpoint)
    requires Ready(e) && !e.acknow && e.snd.nxt == e.snd.una < |e.snd.stream| && e.cc.cwnd == MSS
    ensures var e' := Output(e); var n := HeadLength(e.snd);
      && e'.hist.out == e.hist.out + (if n == 0 then [] else [HeadSegment(e)])
      && e'.snd == AdvanceSend(e.snd, n)
      && (e.tm.rexmt > 0 ==> e'.tm.rexmt == e.tm.rexmt)
      && e'.tm.shift == e.tm.shift && e'.tm.est == e.tm.est
  {
    OutputClosedForm(e);
    var e0, n := e.(acknow := false), HeadLength(e.snd);
    assert e0 == e && Quota(e) == n && BurstBytes(e) == n;
    hide Output, BurstBytes, BurstTimers;
    if n > 0 {
      assert Pieces(e, e.snd.una + n, e.snd.una + n) == [];
      assert Pieces(e, e.snd.una, e.snd.una + n) == [HeadSegment(e)];
    }
  }

  /** The state in which an expiration calls output: rolled back, backed off, a window of one segment. */
  lemma {:induction false} CutBack(e: Endpoint, fired: bool) returns (e': Endpoint)
    requires Inv(e) && e.tm.rexmt == 1 && e.tm.shift < MAX_SHIFT
    ensures Ready(e') && TickRexmt(e, fired) == Output(e')
    ensures !e'.acknow && e'.cc.cwnd == MSS && e'.snd == e.snd.(nxt := e.snd.una) && e'.tm == Expire(e.tm)
    ensures e'.hist == e.hist && e'.rcv == e.rcv && e'.opt == e.opt && e.snd.una < e.snd.max
  {
    hide TickRexmt, Congest, Output;
    ExpiryIs(e, fired);
    RolledBackKeeps(e);
    hide Sound, RecoveryOk, SendOnly, AllGenuine, DelackOk;
    var flight := e.snd.nxt - e.snd.una;
    TimeoutActs(RolledBack(e), flight, fired);
    e' := Congest(RolledBack(e), Timeout(flight), fired);
  }

  /** An expiration sends exactly one segment if the peer's window is open: the bytes at snd_una again,
      as many as one segment and the window allow. snd_nxt is then right behind them. */
  lemma {:induction false} ExpiryResends(e: Endpoint, fired: bool)
    requires Inv(e) && e.tm.rexmt == 1 && e.tm.shift < MAX_SHIFT
    ensures var e' := TickRexmt(e, fired); var n := HeadLength(e.snd);
      && (e.snd.wnd > 0 <==> n > 0)
      && e'.hist.out == e.hist.out + (if n == 0 then [] else [HeadSegment(e)])
      && e'.snd.nxt == e.snd.una + n && e'.snd.una == e.snd.una
  {
    hide TickRexmt, Output;
    var e1 := CutBack(e, fired);
    HeadSent(e1);
  }

  /** A whole tick on which the timer expires: what it sends starts with the bytes at snd_una. */
  lemma {:induction false} TickResends(e: Endpoint, fired: bool)
    requires Inv(e) && e.tm.rexmt == 1 && e.tm.shift < MAX_SHIFT && e.snd.wnd > 0
    ensures e.hist.out + [HeadSegment(e)] <= OnTick(e, fired).hist.out
  {
    hide TickRexmt, TickDelack;
    CountRttKeeps(e);
    var e1 := CountRtt(e);
    ExpiryResends(e1, fired);
    assert HeadSegment(e1) == HeadSegment(e);
    TickRexmtKeeps(e1, fired);
    TickDelackKeeps(TickRexmt(e1, fired));
  }

  lemma {:induction false} TimerMeansData(e: Endpoint)
    requires Inv(e) && e.tm.rexmt > 0
    ensures e.snd.una < e.snd.max
  {
  }

  /** In every run every expiration with an open window sends the byte at snd_una again. */
  lemma {:induction false} EveryExpiryResends(alg: Algorithm, opt: Options, wnd: u32, sts: seq<Stimulus>, fired: bool)
    requires Runs(Established(alg, opt, wnd), sts)
    requires var e := Final(Established(alg, opt, wnd), sts);
      e.tm.rexmt == 1 && e.tm.shift < MAX_SHIFT && e.snd.wnd > 0
    ensures var e := Final(Established(alg, opt, wnd), sts);
      && e.snd.una < e.snd.max
      && e.hist.out + [HeadSegment(e)] <= React(e, Clock(fired)).hist.out
  {
    EstablishedInv(alg, opt, wnd);
    FinalKeeps(Established(alg, opt, wnd), sts);
    var e := Final(Established(alg, opt, wnd), sts);
    TimerMeansData(e);
    hide OnTick, HeadSegment, Inv, Final, Runs, Established;
    TickResends(e, fired);
  }

  /** The byte at `una` has been sent between the two states. */
  ghost predicate SentAgain(e: Endpoint, e': Endpoint) {
    exists i :: |e.hist.out| <= i < |e'.hist.out| && e'.hist.out[i].pos == e.snd.una && e'.hist.out[i].payload != []
  }

  /** While nothing arrives the retransmission timer runs down, and nothing it depends on changes. */
  lemma {:induction false} TimerRunsDown(e: Endpoint, n: nat)
    requires Inv(e) && e.tm.shift < MAX_SHIFT && n < e.tm.rexmt
    ensures Runs(e, OnlyTicks(n)) && var e1 := Final(e, OnlyTicks(n));
      && Inv(e1) && e1.tm.rexmt == e.tm.rexmt - n && e1.tm.shift == e.tm.shift
      && e1.snd.una == e.snd.una && e1.snd.wnd == e.snd.wnd && e.hist.out <= e1.hist.out
  {
    assert Ready(e);
    hide OnTick, Inv, Runs, Final;
    if n == 0 {
      NoTicks(e);
    } else {
      TimerRunsDown(e, n - 1);
      var e0 := Final(e, OnlyTicks(n - 1));
      AppendTick(e, n - 1);
      OnTickKeeps(e0, false);
      TickMoves(e0, false);
    }
  }

  /** With data outstanding, the window open and nothing arriving, the byte at snd_una is sent again by
      the time the retransmission timer has run out. */
  lemma {:induction false} OutstandingIsResent(e: Endpoint)
    requires Inv(e) && e.snd.una != e.snd.max && e.snd.wnd > 0 && e.tm.shift < MAX_SHIFT
    ensures e.tm.rexmt > 0 && Runs(e, OnlyTicks(e.tm.rexmt)) && SentAgain(e, Final(e, OnlyTicks(e.tm.rexmt)))
  {
    assert Ready(e) && e.tm.rexmt > 0;
    hide OnTick, Inv, HeadSegment, Runs, Final, SentAgain;
    var n := e.tm.rexmt - 1;
    TimerRunsDown(e, n);
    AppendTick(e, n);
    TickResends(Final(e, OnlyTicks(n)), false);
    HeadIsSent(e, Final(e, OnlyTicks(n)), Final(e, OnlyTicks(n + 1)));
  }

  lemma {:induction false} NoTicks(e: Endpoint)
    requires Ready(e)
    ensures Runs(e, OnlyTicks(0)) && Final(e, OnlyTicks(0)) == e
  {
  }

  lemma {:induction false} AppendTick(e: Endpoint, n: nat)
    requires Ready(e) && Runs(e, OnlyTicks(n)) && Possible(Final(e, OnlyTicks(n)), Clock(false))
    ensures Runs(e, OnlyTicks(n + 1)) && Final(e, OnlyTicks(n + 1)) == OnTick(Final(e, OnlyTicks(n)), false)
  {
    hide OnTick;
    RunsAppend(e, OnlyTicks(n), Clock(false));
    assert OnlyTicks(n) + [Clock(false)] == OnlyTicks(n + 1);
  }

  lemma {:induction false} HeadIsSent(e: Endpoint, e1: Endpoint, e2: Endpoint)
    requires Inv(e1) && e1.snd.una == e.snd.una && e1.snd.wnd > 0 && e1.tm.rexmt == 1
    requires e.hist.out <= e1.hist.out && e1.hist.out + [HeadSegment(e1)] <= e2.hist.out
    ensures SentAgain(e, e2)
  {
    assert e2.hist.out[|e1.hist.out|] == HeadSegment(e1);
  }

  // ---------- how the timer is set ----------

  /** The backoff in closed form: the timeout doubled once per expiration, six times at most, up to the
      cap. */
  function DoubledTimeout(rto: int, shift: nat): int { Min(rto * Pow2(Min(shift, 6)), RTO_MAX) }

  lemma {:induction false} BackedOffExact(rto: int, shift: nat)
    requires RTO_MIN <= rto <= RTO_MAX && shift <= MAX_SHIFT
    ensures BackedOff(rto, shift) == DoubledTimeout(rto, shift)
  {
    Pow2Values();
    assert Pow2(6) == 2 * Pow2(5);
    assert RttEstimator.Backoff(shift) == Pow2(Min(shift, 6));
  }

  /** An expiration doubles the present timeout: the estimate is kept, the count goes up by one. */
  lemma {:induction false} ExpiryBacksOff(e: Endpoint, fired: bool)
    requires Inv(e) && e.tm.rexmt == 1 && e.tm.shift < MAX_SHIFT
    ensures var e' := TickRexmt(e, fired);
      && e'.tm.est == e.tm.est && e'.tm.shift == e.tm.shift + 1
      && e'.tm.rexmt == DoubledTimeout(e.tm.est.rto, e.tm.shift + 1)
  {
    hide TickRexmt, Output, DoubledTimeout;
    BackedOffExact(e.tm.est.rto, e.tm.shift + 1);
    var e1 := CutBack(e, fired);
    HeadSent(e1);
  }

  /** Sending data starts a stopped timer with the present estimate, and leaves a running one alone. */
  lemma {:induction false} DataArmsTimer(e: Endpoint)
    requires Ready(e) && e.cc.cwnd >= 0
    ensures var e' := Output(e);
      && e'.tm.est == e.tm.est && e'.tm.shift == e.tm.shift
      && e'.tm.rexmt == if e'.snd.nxt > e.snd.nxt && e.tm.rexmt == 0 then e.tm.est.rto else e.tm.rexmt
  {
    OutputClosedForm(e);
    hide Output;
    WindowRespected(e);
  }

  /** A new acknowledgement stops the timer if nothing is outstanding any more, and otherwise sets it to
      the backed-off value of the estimate that includes the sample just taken. */
  lemma {:induction false} AckRearms(e: Endpoint, s: Segment, sample: Option<u32>, fired: bool)
    requires Inv(e) && Advances(e, s)
    ensures var t := HandleAck(e, s, sample, fired).tm;
      t.rexmt == if s.ack == e.snd.max then 0 else DoubledTimeout(t.est.rto, e.tm.shift)
  {
    var wnd := FromField(e.opt.scaled, e.opt.peerScale, s.win);
    SlideKeeps(e, s.ack, wnd, sample);
    var e1, ev := Slide(e, s.ack, wnd, sample), Ack(s.ack - e.snd.una);
    BackedOffExact(e1.tm.est.rto, e.tm.shift);
    AckActs(e1, s.ack - e.snd.una, fired);
  }

  /** An ACK event sends at most the retransmission it asks for; the timer is left alone. */
  lemma {:induction false} AckActs(e: Endpoint, acked: nat, fired: bool)
    requires Ready(e)
    ensures var t := Congest(e, Ack(acked), fired).tm; t.rexmt == e.tm.rexmt && t.est == e.tm.est
  {
  }
}
