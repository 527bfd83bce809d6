/** Karn's rule: which round trips the tick counter measures belong to data sent exactly once. */
module Karn {
  import opened Serial
  import opened Reassembly
  import opened Congestion
  import opened RttEstimator
  import opened WindowScale
  import opened Endpoint
  import opened Burst
  import opened EndpointInvariant
  import opened Run
  import opened Probe

  predicate Covers(s: Segment, p: int) { s.pos <= p < s.pos + |s.payload| }

  /** How often the byte at position `p` has been sent. */
  function Copies(out: seq<Segment>, p: int): nat {
    if out == [] then 0
    else Copies(out[..|out| - 1], p) + if Covers(out[|out| - 1], p) then 1 else 0
  }

  predicate Again(r: Resent, p: int) { r.lo <= p < r.hi }

  /** How often it has been fast-retransmitted. */
  function Recopies(rexmits: seq<Resent>, p: int): nat {
    if rexmits == [] then 0
    else Recopies(rexmits[..|rexmits| - 1], p) + if Again(rexmits[|rexmits| - 1], p) then 1 else 0
  }

  lemma {:induction false} CopiesAppend(out: seq<Segment>, more: seq<Segment>, p: int)
    ensures Copies(out + more, p) == Copies(out, p) + Copies(more, p)
  {
    if more == [] {
      assert out + more == out;
    } else {
      var n := |more| - 1;
      CopiesAppend(out, more[..n], p);
      assert (out + more)[..|out| + n] == out + more[..n];
    }
  }

  lemma {:induction false} RecopiesAppend(rexmits: seq<Resent>, r: Resent, p: int)
    ensures Recopies(rexmits + [r], p) == Recopies(rexmits, p) + if Again(r, p) then 1 else 0
  {
    assert (rexmits + [r])[..|rexmits|] == rexmits;
  }

  lemma {:induction false} RecopiesNone(rexmits: seq<Resent>, p: int)
    ensures Recopies(rexmits, p) == 0 <==> forall r :: r in rexmits ==> !Again(r, p)
  {
    if rexmits != [] {
      var n := |rexmits| - 1;
      RecopiesNone(rexmits[..n], p);
      assert rexmits == rexmits[..n] + [rexmits[n]];
    }
  }

  lemma {:induction false} CopiesOne(s: Segment, p: int)
    ensures Copies([s], p) == if Covers(s, p) then 1 else 0
  {
    assert [s][..0] == [];
  }

  /** A burst sends every byte of its range once. */
  lemma {:induction false} CopiesPieces(e: Endpoint, lo: int, hi: int, p: int)
    requires 0 <= lo && hi <= |e.snd.stream|
    ensures Copies(Pieces(e, lo, hi), p) == if lo <= p < hi then 1 else 0
    decreases hi - lo
  {
    if lo < hi {
      var mid := Min(lo + MSS, hi);
      CopiesPieces(e, mid, hi, p);
      var first := Segment(lo, e.rcv.nxt, Window(e), e.snd.stream[lo..mid]);
      CopiesAppend([first], Pieces(e, mid, hi), p);
      CopiesOne(first, p);
    }
  }

  // ---------- the invariant ----------

  /** Bytes at or past max have been sent by fast retransmissions only. */
  ghost predicate Unsent(e: Endpoint) {
    forall p :: p >= e.snd.max ==> Copies(e.hist.out, p) == Recopies(e.hist.rexmits, p)
  }

  /** The timed byte has been sent once, not counting fast retransmissions. */
  predicate TimedOnce(e: Endpoint) {
    e.tm.rtt != 0 ==>
      e.tm.rtseq < e.snd.nxt && Copies(e.hist.out, e.tm.rtseq) == 1 + Recopies(e.hist.rexmits, e.tm.rtseq)
  }

  /** Under NewReno and LSTM-Reno only a fast retransmission reaching past the max of its time can have
      carried the timed byte. */
  ghost predicate Overshot(e: Endpoint) {
    && (forall r :: r in e.hist.rexmits ==> r.max <= e.snd.max)
    && (Modern(e.alg) && e.tm.rtt != 0 ==>
          forall r :: r in e.hist.rexmits && Again(r, e.tm.rtseq) ==> r.max <= e.tm.rtseq)
  }

  ghost predicate Counted(e: Endpoint) { Unsent(e) && TimedOnce(e) && Overshot(e) }

  /** Nothing is sent and the timing goes on or is given up. */
  ghost predicate Quietly(e: Endpoint, e': Endpoint) {
    && e'.alg == e.alg && e'.hist.out == e.hist.out && e'.hist.rexmits == e.hist.rexmits
    && e'.snd.max == e.snd.max
    && (e'.tm.rtt != 0 ==> e.tm.rtt != 0 && e'.tm.rtseq == e.tm.rtseq && e'.snd.nxt >= e.snd.nxt)
  }

  lemma {:induction false} QuietlyKarn(e: Endpoint, e': Endpoint)
    requires Counted(e) && Quietly(e, e')
    ensures Counted(e')
  {
  }

  /** What a burst adds to the copies of a byte. */
  lemma {:induction false} BurstCopies(e: Endpoint, force: bool, p: int)
    requires Ready(e) && e.cc.cwnd >= 0
    ensures var e' := Burst.Burst(e, force);
      Copies(e'.hist.out, p) == Copies(e.hist.out, p) + if e.snd.nxt <= p < e'.snd.nxt then 1 else 0
  {
    var b := BurstBytes(e);
    var end := e.snd.nxt + b;
    hide Copies, BurstBytes, BurstTimers, Pieces, Window;
    var e' := Burst.Burst(e, force);
    if b > 0 {
      var segs := Pieces(e, e.snd.nxt, end);
      assert e'.hist.out == e.hist.out + segs && e'.snd.nxt == end;
      CopiesAppend(e.hist.out, segs, p);
      CopiesPieces(e, e.snd.nxt, end, p);
    } else if force {
      var ack := Segment(end, e.rcv.nxt, Window(e), []);
      assert e'.hist.out == e.hist.out + [ack] && e'.snd.nxt == e.snd.nxt;
      CopiesAppend(e.hist.out, [ack], p);
      CopiesOne(ack, p);
    } else {
      assert e' == e;
    }
  }

  lemma {:induction false} OutputCopies(e: Endpoint, p: int)
    requires Ready(e) && e.cc.cwnd >= 0
    ensures Copies(Output(e).hist.out, p) ==
      Copies(e.hist.out, p) + if e.snd.nxt <= p < Output(e).snd.nxt then 1 else 0
  {
    hide Output, Copies, Burst.Burst;
    OutputClosedForm(e);
    BurstCopies(e.(acknow := false), e.acknow, p);
  }

  /** Everything else the invariant reads, after a burst. */
  lemma {:induction false} OutputTiming(e: Endpoint)
    requires Ready(e) && e.cc.cwnd >= 0
    ensures var e' := Output(e);
      && e'.alg == e.alg && e'.cc == e.cc && e'.hist.rexmits == e.hist.rexmits
      && e'.snd.max == Max(e.snd.max, e'.snd.nxt) && e'.snd.nxt >= e.snd.nxt
      && ((e'.tm.rtt == e.tm.rtt && e'.tm.rtseq == e.tm.rtseq)
          || (e.tm.rtt == 0 && e.snd.nxt <= e'.tm.rtseq < e'.snd.nxt && e.snd.max <= e'.tm.rtseq))
  {
    OutputClosedForm(e);
    FirstNewLeast(e.snd);
  }

  lemma {:induction false} OutputKarn(e: Endpoint)
    requires Ready(e) && e.cc.cwnd >= 0 && Counted(e)
    ensures Counted(Output(e))
  {
    hide Output;
    var e' := Output(e);
    OutputTiming(e);
    forall p | p >= e'.snd.max
      ensures Copies(e'.hist.out, p) == Recopies(e'.hist.rexmits, p)
    {
      OutputCopies(e, p);
    }
    OutputCopies(e, e'.tm.rtseq);
  }

  lemma {:induction false} RetransmitCopies(e: Endpoint, p: int)
    requires Ready(e)
    ensures var e' := RetransmitHead(e); var extra := if Again(Head(e.snd), p) then 1 else 0;
      && Copies(e'.hist.out, p) == Copies(e.hist.out, p) + extra
      && Recopies(e'.hist.rexmits, p) == Recopies(e.hist.rexmits, p) + extra
  {
    var r := Head(e.snd);
    var s := Segment(e.snd.una, e.rcv.nxt, Window(e), e.snd.stream[r.lo..r.hi]);
    CopiesAppend(e.hist.out, [s], p);
    CopiesOne(s, p);
    RecopiesAppend(e.hist.rexmits, r, p);
  }

  lemma {:induction false} RetransmitKarn(e: Endpoint)
    requires Ready(e) && Counted(e)
    ensures Counted(Perform(e, Retransmit))
  {
    var e' := Perform(e, Retransmit);
    forall p | p >= e'.snd.max
      ensures Copies(e'.hist.out, p) == Recopies(e'.hist.rexmits, p)
    {
      RetransmitCopies(e, p);
    }
    RetransmitCopies(e, e'.tm.rtseq);
  }

  lemma {:induction false} CongestKarn(e: Endpoint, ev: Event, fired: bool)
    requires Ready(e) && Counted(e)
    ensures Counted(Congest(e, ev, fired)) && Congest(e, ev, fired).cc.cwnd >= 0
  {
    var (c, act) := NextCc(e, ev, fired);
    hide NextCc, RetransmitHead, Output;
    var e1 := e.(cc := c);
    QuietlyKarn(e, e1);
    match act
    case Quiet =>
    case Retransmit =>
      RetransmitKarn(e1);
    case Burst =>
      OutputKarn(e1);
      OutputTiming(e1);
  }

  // ---------- every handler ----------

  lemma {:induction false} AckKarn(e: Endpoint, s: Segment, sample: Option<u32>, fired: bool)
    requires Ready(e) && e.cc.cwnd >= 0 && Counted(e)
    ensures Counted(HandleAck(e, s, sample, fired)) && HandleAck(e, s, sample, fired).cc.cwnd >= 0
  {
    hide Congest;
    var wnd := FromField(e.opt.scaled, e.opt.peerScale, s.win);
    if e.snd.una < s.ack <= e.snd.max {
      var e1 := Slide(e, s.ack, wnd, sample);
      QuietlyKarn(e, e1);
      CongestKarn(e1, Ack(s.ack - e.snd.una), fired);
    } else if s.ack == e.snd.una {
      var e1 := e.(snd := e.snd.(wnd := wnd));
      QuietlyKarn(e, e1);
      var e2 := e1.(dupacks := Min(e.dupacks + 1, 255));
      QuietlyKarn(e, e2);
      CongestKarn(e2, DupAck(e2.dupacks), fired);
    }
  }

  lemma {:induction false} DataKarn(e: Endpoint, s: Segment)
    requires Ready(e) && e.cc.cwnd >= 0 && Counted(e) && s.payload != []
    ensures Counted(HandleData(e, s))
  {
    hide Output, Arrive;
    var (r, outcome) := Arrive(e.rcv, s.pos, s.payload);
    match outcome
    case Duplicate =>
      QuietlyKarn(e, e.(acknow := true));
      OutputKarn(e.(acknow := true));
    case NoSpace =>
    case OutOfOrder =>
      QuietlyKarn(e, e.(rcv := r, acknow := true));
      OutputKarn(e.(rcv := r, acknow := true));
    case Accepted(gap) =>
      var e1 := Acknowledge(e.(rcv := r), gap);
      QuietlyKarn(e, e1);
      OutputKarn(e1);
  }

  lemma {:induction false} TickKarn(e: Endpoint, fired: bool)
    requires Ready(e) && e.cc.cwnd >= 0 && Counted(e) && (e.tm.rexmt == 1 ==> e.tm.shift < MAX_SHIFT)
    ensures Counted(OnTick(e, fired))
  {
    hide Output, Congest;
    var e1 := CountRtt(e);
    QuietlyKarn(e, e1);
    var e2 := TickRexmt(e1, fired);
    RexmtKarn(e1, fired);
    DelackKarn(e2);
  }

  lemma {:induction false} RexmtKarn(e: Endpoint, fired: bool)
    requires Ready(e) && e.cc.cwnd >= 0 && Counted(e) && (e.tm.rexmt == 1 ==> e.tm.shift < MAX_SHIFT)
    ensures Counted(TickRexmt(e, fired)) && TickRexmt(e, fired).cc.cwnd >= 0
  {
    hide Output, Congest;
    if e.tm.rexmt > 0 {
      var e1 := e.(tm := e.tm.(rexmt := e.tm.rexmt - 1));
      QuietlyKarn(e, e1);
      if e1.tm.rexmt == 0 {
        var e2, ev := RolledBack(e1), Timeout(e1.snd.nxt - e1.snd.una);
        QuietlyKarn(e1, e2);
        CongestKarn(e2, ev, fired);
        OutputKarn(Congest(e2, ev, fired));
        OutputTiming(Congest(e2, ev, fired));
      }
    }
  }

  lemma {:induction false} DelackKarn(e: Endpoint)
    requires Ready(e) && e.cc.cwnd >= 0 && Counted(e)
    ensures Counted(TickDelack(e))
  {
    hide Output;
    if e.tm.delack > 0 {
      var e1 := e.(tm := e.tm.(delack := e.tm.delack - 1));
      QuietlyKarn(e, e1);
      var e2 := e1.(delayed := false, acknow := true);
      QuietlyKarn(e1, e2);
      OutputKarn(e2);
    }
  }

  /** Every handler keeps the count of copies of the timed byte. */
  lemma {:induction false} ReactKarn(e: Endpoint, st: Stimulus)
    requires Inv(e) && Possible(e, st) && Counted(e)
    ensures Counted(React(e, st))
  {
    hide Output, HandleAck, HandleData, OnTick;
    match st
    case Arrival(s, sample, fired) =>
      AckKarn(e, s, sample, fired);
      var e1 := HandleAck(e, s, sample, fired);
      if s.payload == [] {
        OutputKarn(e1);
      } else {
        DataKarn(e1, s);
      }
    case AppSend(data) =>
      var e1 := e.(snd := e.snd.(stream := e.snd.stream + data));
      QuietlyKarn(e, e1);
      OutputKarn(e1);
    case AppRead(len) =>
      var (r, bytes) := TakeUnread(e.rcv, len);
      var e1 := e.(rcv := r, hist := e.hist.(read := e.hist.read + bytes));
      QuietlyKarn(e, e1);
      QuietlyKarn(e, e1.(acknow := true));
      OutputKarn(e1.(acknow := true));
    case Clock(fired) =>
      TickKarn(e, fired);
  }

  // ---------- whole runs ----------

  lemma {:induction false} KarnInRuns(alg: Algorithm, opt: Options, wnd: u32, sts: seq<Stimulus>)
    requires Runs(Established(alg, opt, wnd), sts)
    ensures Counted(Final(Established(alg, opt, wnd), sts))
    decreases |sts|
  {
    var e := Established(alg, opt, wnd);
    EstablishedInv(alg, opt, wnd);
    if sts != [] {
      hide React, Inv, Counted;
      var init, last := sts[..|sts| - 1], sts[|sts| - 1];
      KarnInRuns(alg, opt, wnd, init);
      FinalKeeps(e, init);
      ReactKarn(Final(e, init), last);
    }
  }

  /** In every state of every run, a tick sample measures a byte that has been sent exactly once if and
      only if no fast retransmission has carried that byte. Expirations never spoil a sample. */
  lemma {:induction false} SampleIsCleanIff(alg: Algorithm, opt: Options, wnd: u32, sts: seq<Stimulus>, ack: int)
    requires Runs(Established(alg, opt, wnd), sts)
    requires var t := Final(Established(alg, opt, wnd), sts).tm; Measured(t, false, ack, None).Some?
    ensures var e := Final(Established(alg, opt, wnd), sts);
      Copies(e.hist.out, e.tm.rtseq) == 1 <==> forall r :: r in e.hist.rexmits ==> !Again(r, e.tm.rtseq)
  {
    var e := Final(Established(alg, opt, wnd), sts);
    KarnInRuns(alg, opt, wnd, sts);
    RecopiesNone(e.hist.rexmits, e.tm.rtseq);
  }

  /** NewReno and LSTM-Reno give up the measurement at a fast retransmission, so under them only one
      that reached past the snd_max of its time can spoil a sample. */
  lemma {:induction false} ModernSampleIsCleanIff(alg: Algorithm, opt: Options, wnd: u32, sts: seq<Stimulus>, ack: int)
    requires Modern(alg) && Runs(Established(alg, opt, wnd), sts)
    requires var t := Final(Established(alg, opt, wnd), sts).tm; Measured(t, false, ack, None).Some?
    ensures var e := Final(Established(alg, opt, wnd), sts);
      Copies(e.hist.out, e.tm.rtseq) == 1 <==>
        forall r :: r in e.hist.rexmits ==> !(r.max <= e.tm.rtseq && Again(r, e.tm.rtseq))
  {
    EstablishedInv(alg, opt, wnd);
    FinalKeeps(Established(alg, opt, wnd), sts);
    KarnInRuns(alg, opt, wnd, sts);
    SampleIsCleanIff(alg, opt, wnd, sts, ack);
  }

  // ---------- spoiled samples ----------

  /** Under Tahoe and Reno a fast retransmission does not stop the timing: the acknowledgement that
      follows yields a sample of a byte sent twice. */
  lemma {:induction false} ClassicSampleSpoiled(alg: Algorithm)
    requires !Modern(alg)
    ensures var e := Established(alg, PLAIN, 1);
      && Runs(e, Dups([0], 3))
      && var t, out := Final(e, Dups([0], 3)).tm, Final(e, Dups([0], 3)).hist.out;
         Measured(t, false, 1, None).Some? && Copies(out, t.rtseq) == 2
  {
    ThreeDups(alg, [0]);
    var s := Segment(0, 0, WIN, [0]);
    CopiesAppend([s], [s], 0);
    CopiesOne(s, 0);
    assert [s] + [s] == [s, s];
  }

  /** The acknowledgement of the first byte. */
  const ACKED := Arrival(Segment(0, 1, 1, []), None, false)

  /** NewReno leaves recovery with everything sent acknowledged. */
  function Emptied(): Endpoint {
    var e := Resending(NewReno, [0, 0]);
    e.(snd := e.snd.(una := 1), cc := Cc(2 * MSS, 2 * MSS, 1, Open), dupacks := 0, tm := e.tm.(rexmt := 0))
  }

  lemma {:induction false} FirstByteSlides()
    ensures var e, e' := Resending(NewReno, [0, 0]), Emptied();
      Slide(e, 1, 1, None) == e'.(cc := Cc(5 * MSS, 2 * MSS, 1, Recovery))
  {
    hide NextCc;
    ThirdDupActs(NewReno, [0, 0]);
  }

  lemma {:induction false} FullAck(e: Endpoint)
    requires Ready(e) && e.alg == NewReno && e.cc == Cc(5 * MSS, 2 * MSS, 1, Recovery) && e.snd.una == 1
    ensures Congest(e, Ack(1), false) == e.(cc := Cc(2 * MSS, 2 * MSS, 1, Open))
  {
  }

  lemma {:induction false} FirstByteAcked()
    ensures HandleAck(Resending(NewReno, [0, 0]), ACKED.s, None, false) == Emptied()
  {
    hide NextCc, Slide, Congest;
    ThirdDupActs(NewReno, [0, 0]);
    FirstByteSlides();
    FullAck(Slide(Resending(NewReno, [0, 0]), 1, 1, None));
  }

  /** The second byte, already sent by the retransmission, is sent again as new data and timed. */
  lemma {:induction false} SecondByteTimed()
    ensures var e := Output(Emptied());
      && e.tm.rtt == 1 && e.tm.rtseq == 1
      && e.hist.out == [Segment(0, 0, WIN, [0]), Segment(0, 0, WIN, [0, 0]), Segment(1, 0, WIN, [0])]
  {
    var e := Emptied();
    assert [0 as u8, 0][1..2] == [0] && [0 as u8, 0][..1] == [0];
    assert e.hist.out == [Segment(0, 0, WIN, [0]), Segment(0, 0, WIN, [0, 0])];
    hide Resending;
    assert Chunk(e) == 1;
    var e1 := Advance(Emit(e, 1, 1), 1);
    assert e1.hist.out == e.hist.out + [Segment(1, 0, WIN, [0])];
    assert Chunk(e1) == 0;
    assert OutputLoop(e1, false) == e1;
    assert OutputLoop(e, false) == OutputLoop(e1, false);
  }

  /** Under NewReno a fast retransmission past snd_max spoils the sample of the data it carried. */
  lemma {:induction false} ModernSampleSpoiled()
    ensures var e, sts := Established(NewReno, PLAIN, 1), Dups([0, 0], 3) + [ACKED];
      && Runs(e, sts)
      && var t, out := Final(e, sts).tm, Final(e, sts).hist.out;
         Measured(t, false, 2, None).Some? && Copies(out, t.rtseq) == 2
  {
    hide HandleAck, Output, Emptied, Resending;
    ThreeDups(NewReno, [0, 0]);
    FirstByteAcked();
    RunsAppend(Established(NewReno, PLAIN, 1), Dups([0, 0], 3), ACKED);
    SecondByteTimed();
    var s1, s2, s3 := Segment(0, 0, WIN, [0]), Segment(0, 0, WIN, [0, 0]), Segment(1, 0, WIN, [0]);
    CopiesAppend([s1], [s2], 1);
    CopiesAppend([s1] + [s2], [s3], 1);
    CopiesOne(s1, 1);
    CopiesOne(s2, 1);
    CopiesOne(s3, 1);
    assert [s1] + [s2] + [s3] == [s1, s2, s3];
  }
}
