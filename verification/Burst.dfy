/** The output burst in closed form: how many bytes utcp_output sends, in which segments, and what
    it leaves unchanged. */
module Burst {
  import opened Serial
  import opened Congestion
  import opened WindowScale
  import opened Endpoint

  function Inflight(e: Endpoint): int { e.snd.nxt - e.snd.una }

  /** The bytes both windows and the send buffer would allow. */
  function Quota(e: Endpoint): int {
    Min(|e.snd.stream| - e.snd.nxt, Max(0, Min(e.snd.wnd, e.cc.cwnd) - Inflight(e)))
  }

  /** What a burst sends: everything when the pipe is empty and less than a segment is allowed,
      whole segments otherwise. */
  function BurstBytes(e: Endpoint): (b: int)
    requires Ready(e) && e.cc.cwnd >= 0
    ensures 0 <= b <= Quota(e)
    ensures b % MSS == 0 || (b == Quota(e) < MSS && Inflight(e) == 0)
    ensures b == 0 ==> Quota(e) == 0 || (Quota(e) < MSS && Inflight(e) > 0)
  {
    var a := Quota(e);
    if Inflight(e) == 0 && a < MSS then a else MSS * (a / MSS)
  }

  /** The segments that carry stream bytes lo..hi, MSS at a time. */
  function Pieces(e: Endpoint, lo: int, hi: int): seq<Segment>
    requires 0 <= lo && hi <= |e.snd.stream|
    decreases hi - lo
  {
    if lo >= hi then []
    else
      var mid := Min(lo + MSS, hi);
      [Segment(lo, e.rcv.nxt, Window(e), e.snd.stream[lo..mid])] + Pieces(e, mid, hi)
  }

  function Window(e: Endpoint): u16 { ToField(e.opt.scaled, RCV_SCALE, Wrap(e.rcv.Free())) }

  /** Where a burst would first send a segment of nothing but new data, if it got so far: the least
      nxt + k * MSS that is not below max. */
  function FirstNew(s: Send): int {
    if s.max <= s.nxt then s.nxt else s.nxt + MSS * ((s.max - s.nxt + MSS - 1) / MSS)
  }

  /** The timers after a burst of `b` bytes: the first new segment is timed if nothing else is. */
  function BurstTimers(e: Endpoint, b: int): Timers {
    var track := e.tm.rtt == 0 && FirstNew(e.snd) < e.snd.nxt + b;
    e.tm.(rexmt := if b > 0 && e.tm.rexmt == 0 then e.tm.est.rto else e.tm.rexmt,
          delack := if e.delayed then 0 else e.tm.delack,
          rtt := if track then 1 else e.tm.rtt,
          rtseq := if track then FirstNew(e.snd) else e.tm.rtseq)
  }

  /** Everything one output call does, given whether it must send at least an empty ACK. */
  function Burst(e: Endpoint, force: bool): Endpoint
    requires Ready(e) && e.cc.cwnd >= 0
  {
    var b := BurstBytes(e);
    var end := e.snd.nxt + b;
    if b == 0 && !force then e
    else
      var segs := if b > 0 then Pieces(e, e.snd.nxt, end) else [Segment(end, e.rcv.nxt, Window(e), [])];
      e.(snd := AdvanceSend(e.snd, b), tm := BurstTimers(e, b), delayed := false,
         hist := e.hist.(out := e.hist.out + segs, lastAck := e.rcv.nxt, unacked := 0))
  }

  /** The first pass sends exactly the first piece of the closed form. */
  lemma {:induction false} ChunkIsFirstPiece(e: Endpoint)
    requires Ready(e) && e.cc.cwnd >= 0
    ensures Chunk(e) == Min(BurstBytes(e), MSS)
    ensures Chunk(e) > 0 ==> BurstBytes(Pass(e, Chunk(e))) == BurstBytes(e) - Chunk(e)
  {
    var a, d := Quota(e), Chunk(e);
    if d > 0 {
      var e1 := Pass(e, d);
      assert Quota(e1) == a - d;
      assert Inflight(e1) > 0;
      if d == MSS {
        assert (a - MSS) / MSS == a / MSS - 1;
      }
    }
  }

  lemma {:induction false} PiecesFrame(e: Endpoint, e1: Endpoint, lo: int, hi: int)
    requires 0 <= lo && hi <= |e.snd.stream|
    requires e1.snd.stream == e.snd.stream && e1.rcv == e.rcv && e1.opt == e.opt
    ensures Pieces(e1, lo, hi) == Pieces(e, lo, hi)
    decreases hi - lo
  {
    if lo < hi {
      PiecesFrame(e, e1, Min(lo + MSS, hi), hi);
    }
  }

  /** A burst is cut into full segments, one after the other, and at most the last is shorter. */
  lemma {:induction false} PiecesTile(e: Endpoint, lo: int, hi: int, i: nat)
    requires 0 <= lo < hi <= |e.snd.stream| && i < |Pieces(e, lo, hi)|
    ensures var s := Pieces(e, lo, hi)[i]; var pos := lo + i * MSS;
      && s.pos == pos < hi && s.payload == e.snd.stream[pos..Min(pos + MSS, hi)]
      && (i == |Pieces(e, lo, hi)| - 1 <==> pos + MSS >= hi)
    decreases hi - lo
  {
    var mid := Min(lo + MSS, hi);
    if mid == hi {
      assert Pieces(e, hi, hi) == [];
    } else if i > 0 {
      PiecesTile(e, mid, hi, i - 1);
    } else {
      assert Pieces(e, mid, hi) != [];
    }
  }

  /** The state after one pass that sent `d` payload bytes. */
  function Pass(e: Endpoint, d: nat): Endpoint
    requires Ready(e) && e.snd.nxt + d <= |e.snd.stream|
    ensures Ready(Pass(e, d))
  {
    Advance(Emit(CancelDelayed(e), e.snd.nxt, d), d)
  }

  lemma {:induction false} FirstPiece(e: Endpoint, d: nat, end: int)
    requires Ready(e) && 0 < d && e.snd.nxt + d <= end <= |e.snd.stream|
    requires d == Min(end - e.snd.nxt, MSS)
    ensures Pass(e, d).hist.out + Pieces(Pass(e, d), e.snd.nxt + d, end) == e.hist.out + Pieces(e, e.snd.nxt, end)
  {
    var e1 := Pass(e, d);
    var mid := e.snd.nxt + d;
    PiecesFrame(e, e1, mid, end);
    var first := [Segment(e.snd.nxt, e.rcv.nxt, Window(e), e.snd.stream[e.snd.nxt..mid])];
    assert e1.hist.out == e.hist.out + first;
    assert Pieces(e, e.snd.nxt, end) == first + Pieces(e, mid, end);
    assert e.hist.out + first + Pieces(e, mid, end) == e.hist.out + (first + Pieces(e, mid, end));
  }

  /** A pass starts the timers, or leaves that to the rest of the burst. */
  lemma {:induction false} TimersStep(e: Endpoint, d: nat, b: int)
    requires Ready(e) && 0 < d == Min(b, MSS) && e.snd.nxt + b <= |e.snd.stream|
    ensures BurstTimers(Pass(e, d), b - d) == BurstTimers(e, b)
  {
    if e.snd.nxt < e.snd.max && d == MSS {
      FirstNewStep(e.snd);
    }
  }

  /** It is the first segment boundary of the burst at or past max. */
  lemma {:induction false} FirstNewLeast(s: Send)
    ensures FirstNew(s) >= s.nxt && FirstNew(s) >= s.max && (FirstNew(s) - s.nxt) % MSS == 0
    ensures FirstNew(s) > s.nxt ==> FirstNew(s) - MSS < s.max
  {
    if s.nxt < s.max {
      var gap := s.max - s.nxt + MSS - 1;
      assert gap == MSS * (gap / MSS) + gap % MSS;
      assert MSS * (gap / MSS) % MSS == 0;
    }
  }

  lemma {:induction false} FirstNewStep(s: Send)
    requires s.nxt < s.max
    ensures FirstNew(AdvanceSend(s, MSS)) == FirstNew(s)
    ensures FirstNew(s) >= s.nxt + MSS
  {
    var gap := s.max - s.nxt + MSS - 1;
    assert (gap - MSS) / MSS == gap / MSS - 1;
  }

  /** A burst of one segment is one pass. */
  lemma {:induction false} LastPass(e: Endpoint, force: bool)
    requires Ready(e) && e.cc.cwnd >= 0 && 0 < Chunk(e) == BurstBytes(e)
    ensures Pass(e, Chunk(e)) == Burst(e, force)
  {
    ChunkIsFirstPiece(e);
    var d, end := Chunk(e), e.snd.nxt + BurstBytes(e);
    FirstPiece(e, d, end);
    TimersStep(e, d, d);
    assert Pieces(Pass(e, d), end, end) == [];
  }

  /** A first pass and more to come. */
  lemma {:induction false} MorePasses(e: Endpoint, force: bool, d: int, b: int)
    requires Ready(e) && e.cc.cwnd >= 0 && d == Chunk(e) && b == BurstBytes(e) && 0 < d == Min(b, MSS) < b
    requires BurstBytes(Pass(e, d)) == b - d
    ensures Burst(Pass(e, d), false) == Burst(e, force)
  {
    hide FirstNew, BurstTimers, Pieces, Chunk, BurstBytes;
    FirstPiece(e, d, e.snd.nxt + b);
    TimersStep(e, d, b);
  }

  /** One pass followed by the rest of the burst is the burst. */
  lemma {:induction false} BurstStep(e: Endpoint, force: bool)
    requires Ready(e) && e.cc.cwnd >= 0 && Chunk(e) > 0
    ensures Burst(Pass(e, Chunk(e)), false) == Burst(e, force)
  {
    ChunkIsFirstPiece(e);
    var d, b := Chunk(e), BurstBytes(e);
    hide Chunk, BurstBytes, Pass;
    if d == b {
      LastPass(e, force);
    } else {
      MorePasses(e, force, d, b);
    }
  }

  /** The output loop terminates having done exactly Burst. */
  lemma {:induction false} LoopClosedForm(e: Endpoint, force: bool)
    requires Ready(e) && e.cc.cwnd >= 0
    ensures OutputLoop(e, force) == Burst(e, force)
    decreases |e.snd.stream| - e.snd.nxt
  {
    var d := Chunk(e);
    if d == 0 {
      ChunkIsFirstPiece(e);
      assert e.snd.stream[e.snd.nxt..e.snd.nxt] == [];
    } else {
      var e1 := Pass(e, d);
      LoopClosedForm(e1, false);
      BurstStep(e, force);
    }
  }

  /** utcp_output in closed form. */
  lemma {:induction false} OutputClosedForm(e: Endpoint)
    requires Ready(e) && e.cc.cwnd >= 0
    ensures Output(e) == Burst(e.(acknow := false), e.acknow)
  {
    LoopClosedForm(e.(acknow := false), e.acknow);
  }

  /** Sending data never takes the bytes in flight above either window, and the burst uses the
      allowance up to less than one segment. */
  lemma {:induction false} WindowRespected(e: Endpoint)
    requires Ready(e) && e.cc.cwnd >= 0
    ensures var e' := Output(e);
      && (e'.snd.nxt > e.snd.nxt ==> Inflight(e') <= Min(e.snd.wnd, e.cc.cwnd))
      && e'.snd.nxt - e.snd.nxt == BurstBytes(e)
      && Quota(e') < MSS
  {
    OutputClosedForm(e);
    assert BurstBytes(e.(acknow := false)) == BurstBytes(e);
  }

  /** An immediate second call sends nothing at all. */
  lemma {:induction false} OutputIdempotent(e: Endpoint)
    requires Ready(e) && e.cc.cwnd >= 0
    ensures Output(Output(e)) == Output(e)
  {
    var e1 := Output(e);
    WindowRespected(e);
    OutputClosedForm(e);
    assert !e1.acknow;
    if Chunk(e1) > 0 {
      assert Quota(e1) > 0;
    }
  }
}
