/** The backoff count t_rxtshift over whole runs, against the 13-entry table it indexes. */
module Backoff {
  import opened Serial
  import opened Reassembly
  import opened Congestion
  import opened RttEstimator
  import opened WindowScale
  import opened Endpoint
  import opened EndpointInvariant
  import opened Run
  import opened Probe

  /** The retransmission timer expires on this stimulus. */
  predicate Expires(e: Endpoint, st: Stimulus) { st.Clock? && e.tm.rexmt == 1 }

  /** This stimulus acknowledges everything sent. */
  predicate AcksAll(e: Endpoint, st: Stimulus) { st.Arrival? && e.snd.una < st.s.ack == e.snd.max }

  lemma {:induction false} SlideShift(e: Endpoint, ack: int, wnd: u32, sample: Option<u32>)
    requires Ready(e) && e.snd.una < ack <= e.snd.max
    ensures Slide(e, ack, wnd, sample).tm.shift == if ack == e.snd.max then 0 else e.tm.shift
  {
  }

  lemma {:induction false} AckShift(e: Endpoint, s: Segment, sample: Option<u32>, fired: bool)
    requires Inv(e)
    ensures HandleAck(e, s, sample, fired).tm.shift == if e.snd.una < s.ack == e.snd.max then 0 else e.tm.shift
  {
    hide Congest;
    var wnd := FromField(e.opt.scaled, e.opt.peerScale, s.win);
    if e.snd.una < s.ack <= e.snd.max {
      SlideKeeps(e, s.ack, wnd, sample);
      SlideShift(e, s.ack, wnd, sample);
      CongestKeeps(Slide(e, s.ack, wnd, sample), Ack(s.ack - e.snd.una), fired);
    } else if s.ack == e.snd.una && wnd <= e.snd.wnd && s.payload == [] && e.snd.una != e.snd.max {
      var dups := Min(e.dupacks + 1, 255);
      CongestKeeps(e.(snd := e.snd.(wnd := wnd), dupacks := dups), DupAck(dups), fired);
    }
  }

  /** One stimulus: an expiration counts, acknowledging everything starts over, nothing else matters. */
  lemma {:induction false} ShiftStep(e: Endpoint, st: Stimulus)
    requires Inv(e) && Possible(e, st)
    ensures React(e, st).tm.shift ==
      if Expires(e, st) then e.tm.shift + 1 else if AcksAll(e, st) then 0 else e.tm.shift
  {
    match st
    case Arrival(s, sample, fired) =>
      hide HandleAck;
      AckShift(e, s, sample, fired);
      HandleAckKeeps(e, s, sample, fired);
      var e1 := HandleAck(e, s, sample, fired);
      if s.payload == [] {
        OutputKeeps(e1);
      } else {
        HandleDataKeeps(e1, s);
      }
    case AppSend(data) =>
      OnSendKeeps(e, data);
    case AppRead(len) =>
      OnReadKeeps(e, len);
    case Clock(fired) =>
      hide OnTick;
      OnTickKeeps(e, fired);
  }

  // ---------- whole runs ----------

  /** The state in which stimulus `k` of a run is handled. */
  function Before(e: Endpoint, sts: seq<Stimulus>, k: nat): Endpoint
    requires Ready(e) && Runs(e, sts) && k < |sts|
  {
    RunsPrefix(e, sts, k);
    Final(e, sts[..k])
  }

  /** The expirations among the stimuli from number `k` on. */
  function Expirations(e: Endpoint, sts: seq<Stimulus>, k: nat): nat
    requires Ready(e) && Runs(e, sts)
    decreases |sts|
  {
    if |sts| <= k then 0
    else
      var n := |sts| - 1;
      Expirations(e, sts[..n], k) + if Expires(Final(e, sts[..n]), sts[n]) then 1 else 0
  }

  /** Stimulus `i` of a run acknowledges everything. */
  predicate AllAckedAt(e: Endpoint, sts: seq<Stimulus>, i: nat)
    requires Ready(e) && Runs(e, sts) && i < |sts|
  {
    AcksAll(Before(e, sts, i), sts[i])
  }

  /** Stimulus `k - 1` was the last to acknowledge everything; 0 if none has. */
  ghost predicate AllAckedUntil(e: Endpoint, sts: seq<Stimulus>, k: nat)
    requires Ready(e) && Runs(e, sts)
  {
    && k <= |sts|
    && (k > 0 ==> AllAckedAt(e, sts, k - 1))
    && forall i :: k <= i < |sts| ==> !AllAckedAt(e, sts, i)
  }

  /** What a stimulus does in a run does not depend on what follows. */
  lemma {:induction false} AllAckedBefore(e: Endpoint, sts: seq<Stimulus>, i: nat)
    requires Ready(e) && Runs(e, sts) && i < |sts|
    ensures var n := |sts| - 1;
      && Runs(e, sts[..n])
      && AllAckedAt(e, sts, i) == if i < n then AllAckedAt(e, sts[..n], i) else AcksAll(Final(e, sts[..n]), sts[n])
  {
    hide AcksAll, React, Possible;
    var init := sts[..|sts| - 1];
    RunsPrefix(e, sts, |init|);
    if i < |init| {
      assert init[..i] == sts[..i];
    }
  }

  lemma {:induction false} AllAckedPrefix(e: Endpoint, sts: seq<Stimulus>, k: nat)
    requires Ready(e) && Runs(e, sts) && AllAckedUntil(e, sts, k) && k < |sts|
    ensures Runs(e, sts[..|sts| - 1]) && AllAckedUntil(e, sts[..|sts| - 1], k)
    ensures !AcksAll(Final(e, sts[..|sts| - 1]), sts[|sts| - 1])
  {
    hide AcksAll, AllAckedAt, Runs, Final;
    var init := sts[..|sts| - 1];
    AllAckedBefore(e, sts, |init|);
    forall i | k <= i < |init|
      ensures !AllAckedAt(e, init, i)
    {
      AllAckedBefore(e, sts, i);
      assert !AllAckedAt(e, sts, i);
    }
    if k > 0 {
      AllAckedBefore(e, sts, k - 1);
    }
  }

  /** The last stimulus does not acknowledge everything, so the point stays where it was. */
  lemma {:induction false} AllAckedExtend(e: Endpoint, sts: seq<Stimulus>, k: nat)
    requires Ready(e) && Runs(e, sts) && sts != [] && Runs(e, sts[..|sts| - 1])
    requires AllAckedUntil(e, sts[..|sts| - 1], k) && !AcksAll(Final(e, sts[..|sts| - 1]), sts[|sts| - 1])
    ensures AllAckedUntil(e, sts, k)
  {
    hide AcksAll, AllAckedAt, Runs, Final;
    AllAckedBefore(e, sts, |sts| - 1);
    forall i | 0 <= i < |sts| - 1
      ensures AllAckedAt(e, sts, i) == AllAckedAt(e, sts[..|sts| - 1], i)
    {
      AllAckedBefore(e, sts, i);
    }
  }

  /** The last stimulus acknowledges everything. */
  lemma {:induction false} AllAckedHere(e: Endpoint, sts: seq<Stimulus>)
    requires Ready(e) && Runs(e, sts)
    requires sts != [] ==> AcksAll(Final(e, sts[..|sts| - 1]), sts[|sts| - 1])
    ensures AllAckedUntil(e, sts, |sts|)
  {
    hide AcksAll, AllAckedAt, Final;
    if sts != [] {
      AllAckedBefore(e, sts, |sts| - 1);
    }
  }

  /** Every run has such a point. */
  lemma {:induction false} LastAllAcked(e: Endpoint, sts: seq<Stimulus>) returns (k: nat)
    requires Ready(e) && Runs(e, sts)
    ensures AllAckedUntil(e, sts, k)
    decreases |sts|
  {
    k := |sts|;
    if sts != [] {
      var init, last := sts[..|sts| - 1], sts[|sts| - 1];
      RunsPrefix(e, sts, |init|);
      hide Before, Final, AcksAll, AllAckedUntil, Runs;
      if AcksAll(Final(e, init), last) {
        AllAckedHere(e, sts);
      } else {
        k := LastAllAcked(e, init);
        AllAckedExtend(e, sts, k);
      }
    } else {
      AllAckedHere(e, sts);
    }
  }

  /** t_rxtshift is the number of expirations since everything was last acknowledged, in every state
      of every run. */
  lemma {:induction false} ShiftCountsExpirations(alg: Algorithm, opt: Options, wnd: u32, sts: seq<Stimulus>, k: nat)
    requires var e := Established(alg, opt, wnd); Runs(e, sts) && AllAckedUntil(e, sts, k)
    ensures var e := Established(alg, opt, wnd); Final(e, sts).tm.shift == Expirations(e, sts, k)
    decreases |sts|
  {
    var e := Established(alg, opt, wnd);
    EstablishedInv(alg, opt, wnd);
    if sts != [] {
      hide Inv, React;
      var n := |sts| - 1;
      FinalKeeps(e, sts[..n]);
      ShiftStep(Final(e, sts[..n]), sts[n]);
      if k < |sts| {
        AllAckedPrefix(e, sts, k);
        ShiftCountsExpirations(alg, opt, wnd, sts[..n], k);
      }
    }
  }

  // ---------- the table ----------

  /** The entries of tcp_backoff. */
  const TABLE_SIZE: int := MAX_SHIFT + 1

  /** The next tick increments t_rxtshift and then reads the table past its end. */
  predicate Overruns(e: Endpoint) { e.tm.rexmt == 1 && e.tm.shift + 1 >= TABLE_SIZE }

  /** The next tick of a run reads past the table exactly if the timer is about to expire for the
      thirteenth time since everything was acknowledged. */
  lemma {:induction false} OverrunsIff(alg: Algorithm, opt: Options, wnd: u32, sts: seq<Stimulus>, k: nat)
    requires var e := Established(alg, opt, wnd); Runs(e, sts) && AllAckedUntil(e, sts, k)
    ensures var e := Established(alg, opt, wnd);
      Overruns(Final(e, sts)) <==> Final(e, sts).tm.rexmt == 1 && Expirations(e, sts, k) == 12
  {
    var e := Established(alg, opt, wnd);
    EstablishedInv(alg, opt, wnd);
    FinalKeeps(e, sts);
    ShiftCountsExpirations(alg, opt, wnd, sts, k);
  }

  /** `n` ticks and nothing else. */
  function OnlyTicks(n: nat): seq<Stimulus> { seq(n, _ => Clock(false)) }

  predicate Outstanding(e: Endpoint) {
    e.snd.una != e.snd.max && 1 <= e.tm.rexmt <= RTO_MAX && e.tm.shift <= MAX_SHIFT
  }

  /** A bound on the ticks still to come before the overrun: less than 13 times 6400. */
  function Left(e: Endpoint): nat
    requires Outstanding(e)
  {
    (MAX_SHIFT - e.tm.shift) * RTO_MAX + e.tm.rexmt - 1
  }

  lemma {:induction false} TickLeaves(e: Endpoint)
    requires Inv(e) && Outstanding(e) && !Overruns(e)
    ensures var e' := OnTick(e, false); Outstanding(e') && Left(e') < Left(e)
  {
    hide OnTick;
    OnTickKeeps(e, false);
  }

  /** After any run that leaves data outstanding, enough ticks without an acknowledgement always lead
      to a tick that reads past the table. */
  lemma {:induction false} SilenceOverruns(e: Endpoint, sts: seq<Stimulus>, n: nat) returns (m: nat)
    requires Inv(e) && Runs(e, sts + OnlyTicks(n)) && Outstanding(Final(e, sts + OnlyTicks(n)))
    ensures m <= n + Left(Final(e, sts + OnlyTicks(n)))
    ensures Runs(e, sts + OnlyTicks(m)) && Overruns(Final(e, sts + OnlyTicks(m)))
    decreases Left(Final(e, sts + OnlyTicks(n)))
  {
    assert Ready(e);
    hide Inv, OnTick, Outstanding, Left, Overruns;
    var e1 := Final(e, sts + OnlyTicks(n));
    FinalKeeps(e, sts + OnlyTicks(n));
    if Overruns(e1) {
      m := n;
    } else {
      NextTick(e, sts, n);
      m := SilenceOverruns(e, sts, n + 1);
    }
  }

  lemma {:induction false} NextTick(e: Endpoint, sts: seq<Stimulus>, n: nat)
    requires Inv(e) && Runs(e, sts + OnlyTicks(n))
    requires Outstanding(Final(e, sts + OnlyTicks(n))) && !Overruns(Final(e, sts + OnlyTicks(n)))
    ensures Runs(e, sts + OnlyTicks(n + 1)) && Outstanding(Final(e, sts + OnlyTicks(n + 1)))
    ensures Left(Final(e, sts + OnlyTicks(n + 1))) < Left(Final(e, sts + OnlyTicks(n)))
  {
    assert Ready(e);
    hide Inv, OnTick, Left;
    var e1 := Final(e, sts + OnlyTicks(n));
    FinalKeeps(e, sts + OnlyTicks(n));
    RunsAppend(e, sts + OnlyTicks(n), Clock(false));
    assert sts + OnlyTicks(n) + [Clock(false)] == sts + OnlyTicks(n + 1);
    TickLeaves(e1);
  }

  /** The failing run: one byte is sent and the peer stays silent. */
  lemma {:induction false} OneByteOverruns(alg: Algorithm) returns (m: nat)
    ensures var e, sts := Established(alg, PLAIN, 1), [AppSend([0])] + OnlyTicks(m);
      Runs(e, sts) && Overruns(Final(e, sts))
  {
    var e := Established(alg, PLAIN, 1);
    EstablishedInv(alg, PLAIN, 1);
    ProbeSent(alg, [0]);
    assert [AppSend([0])] + OnlyTicks(0) == [AppSend([0])];
    m := SilenceOverruns(e, [AppSend([0])], 0);
  }
}
