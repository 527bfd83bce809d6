/** The congestion windows over whole runs of an endpoint, whatever arrives. */
module WindowRuns {
  import opened Serial
  import opened Ring
  import opened Reassembly
  import opened Congestion
  import opened WindowFloor
  import opened Endpoint
  import opened EndpointInvariant
  import opened Run
  import opened Probe

  // ---------- the floor of one segment ----------

  /** What the variables hold before INIT does not matter, except `recover` for Tahoe and Reno, which
      never read it. */
  const UNSET := Cc(0, 2 * MSS, -1, Open)

  /** The congestion events of a run, in order. */
  function Events(e: Endpoint, sts: seq<Stimulus>): seq<Input>
    requires Ready(e) && Runs(e, sts)
  {
    if sts == [] then []
    else
      var n := |sts| - 1;
      Events(e, sts[..n]) + EventOf(Final(e, sts[..n]), sts[n])
  }

  function Arrivals(sts: seq<Stimulus>): nat {
    if sts == [] then 0
    else Arrivals(sts[..|sts| - 1]) + if sts[|sts| - 1].Arrival? then 1 else 0
  }

  lemma {:induction false} RaisedOk(e: Endpoint, st: Stimulus)
    requires Inv(e)
    ensures match Raised(e, st)
      case None => true
      case Some(i) => i.w.Ok() && i.w.Size() <= BUF_SIZE && i.w.una == UnaAfter(e, st)
                      && (FromPeer(i.ev) ==> st.Arrival?) && !i.ev.Init?
                      && if i.ev.Ack? then 1 <= i.ev.acked == UnaAfter(e, st) - e.snd.una
                         else UnaAfter(e, st) == e.snd.una
  {
  }

  lemma {:induction false} AfterAppend(alg: Algorithm, inputs: seq<Input>, i: Input)
    requires Within(inputs, BUF_SIZE) && i.w.Ok() && i.w.Size() <= BUF_SIZE
    ensures After(alg, UNSET, inputs + [i]) == Control(alg, After(alg, UNSET, inputs), i).0
    ensures Within(inputs + [i], BUF_SIZE) && Acks(inputs + [i]) == Acks(inputs) + if FromPeer(i.ev) then 1 else 0
  {
    assert (inputs + [i])[..|inputs|] == inputs;
  }

  function EventOf(e: Endpoint, st: Stimulus): seq<Input> {
    match Raised(e, st) case None => [] case Some(i) => [i]
  }

  lemma {:induction false} CcStep(e: Endpoint, st: Stimulus, inputs: seq<Input>)
    requires Inv(e) && Possible(e, st) && Within(inputs, BUF_SIZE) && e.cc == After(e.alg, UNSET, inputs)
    ensures var more := inputs + EventOf(e, st);
      && Within(more, BUF_SIZE) && Acks(more) <= Acks(inputs) + (if st.Arrival? then 1 else 0)
      && React(e, st).cc == After(e.alg, UNSET, more)
  {
    hide React, Control, After, Acks, Raised;
    CcFollows(e, st);
    RaisedOk(e, st);
    match Raised(e, st)
    case None =>
      assert inputs + [] == inputs;
    case Some(i) =>
      AfterAppend(e.alg, inputs, i);
  }

  /** The congestion state of a run is the algorithm run over its events, which are no more
      acknowledgements than segments have arrived. */
  lemma {:induction false} CcIsAfter(alg: Algorithm, opt: Options, wnd: u32, sts: seq<Stimulus>)
    requires Runs(Established(alg, opt, wnd), sts)
    ensures var e := Established(alg, opt, wnd); var inputs := Events(e, sts);
      && Within(inputs, BUF_SIZE) && Acks(inputs) <= Arrivals(sts)
      && Final(e, sts).cc == After(alg, UNSET, inputs)
    decreases |sts|
  {
    var e := Established(alg, opt, wnd);
    EstablishedInv(alg, opt, wnd);
    if sts != [] {
      hide Inv, React, After, Acks, EventOf;
      var init, last := sts[..|sts| - 1], sts[|sts| - 1];
      CcIsAfter(alg, opt, wnd, init);
      FinalKeeps(e, init);
      CcStep(Final(e, init), last, Events(e, init));
    }
  }

  /** Under all four algorithms, a run in which too few segments arrive to build cwnd up to 2^32 keeps
      cwnd at one segment or more and ssthresh at two or more; sends, reads and ticks do not count. */
  lemma {:induction false} FloorInRuns(alg: Algorithm, opt: Options, wnd: u32, sts: seq<Stimulus>)
    requires Runs(Established(alg, opt, wnd), sts)
    requires Ceiling(alg, BUF_SIZE, Arrivals(sts)) < TWO32
    ensures var c := Final(Established(alg, opt, wnd), sts).cc;
      MSS <= c.cwnd <= Ceiling(alg, BUF_SIZE, Arrivals(sts)) && c.ssthresh >= 2 * MSS
  {
    CcIsAfter(alg, opt, wnd, sts);
    RunFloors(alg, UNSET, Events(Established(alg, opt, wnd), sts), BUF_SIZE, Arrivals(sts));
  }

  /** From any state with the floor, one handler keeps it exactly if its event adds too little to
      carry out of 32 bits. */
  lemma {:induction false} FloorStepIff(e: Endpoint, st: Stimulus)
    requires Inv(e) && Possible(e, st) && e.cc.cwnd >= MSS
    ensures React(e, st).cc.cwnd >= MSS <==>
      match Raised(e, st) case None => true case Some(i) => e.cc.cwnd + Added(e.alg, e.cc, i) < TWO32
  {
    hide Control, React, Added, Raised;
    CcFollows(e, st);
    RaisedOk(e, st);
    match Raised(e, st)
    case None =>
    case Some(i) =>
      FloorIff(e.alg, e.cc, i);
  }

  // ---------- what holds without any bound ----------

  /** Outside recovery cwnd stays between one segment and the bytes acknowledged plus a constant, under
      every algorithm but Reno, which inflates outside recovery too. */
  predicate Settled(alg: Algorithm, c: Cc, una: int) {
    if c.ca.Recovery? then !alg.Tahoe? && c.ssthresh <= Halve(BUF_SIZE)
    else MSS <= c.cwnd <= una + Halve(BUF_SIZE)
  }

  lemma {:induction false} SettledRaw(alg: Algorithm, c: Cc, i: Input, una: int)
    requires !alg.Reno? && InRange(c) && i.w.Ok() && i.w.Size() <= BUF_SIZE && Settled(alg, c, una)
    requires if i.ev.Ack? then una + i.ev.acked == i.w.una && i.ev.acked >= 1 else i.w.una == una
    ensures Settled(alg, Raw(alg, c, i).0, i.w.una)
  {
    if i.ev.Ack? && !c.ca.Recovery? {
      GrowthBound(c, i.ev.acked);
      GrowthBound(c.(ca := Open), i.ev.acked);
      GrowthBound(Preempt(c, i), i.ev.acked);
    }
    hide Growth;
    match alg
    case Tahoe =>
    case NewReno =>
    case LstmReno =>
  }

  lemma {:induction false} SettledStep(alg: Algorithm, c: Cc, i: Input, una: int)
    requires !alg.Reno? && InRange(c) && i.w.Ok() && i.w.Size() <= BUF_SIZE && Settled(alg, c, una)
    requires if i.ev.Ack? then una + i.ev.acked == i.w.una && i.ev.acked >= 1 else i.w.una == una
    ensures Settled(alg, Control(alg, c, i).0, i.w.una)
  {
    hide Raw;
    SettledRaw(alg, c, i, una);
  }

  /** In every state of every run of Tahoe, NewReno and LSTM-Reno, however long: outside recovery cwnd
      is at least one segment and nowhere near 2^32. */
  lemma {:induction false} SettledInRuns(alg: Algorithm, opt: Options, wnd: u32, sts: seq<Stimulus>)
    requires Runs(Established(alg, opt, wnd), sts) && !alg.Reno?
    ensures var e := Final(Established(alg, opt, wnd), sts); Settled(alg, e.cc, e.snd.una)
    decreases |sts|
  {
    var e := Established(alg, opt, wnd);
    EstablishedInv(alg, opt, wnd);
    if sts != [] {
      hide React, Control, Raised;
      var init, last := sts[..|sts| - 1], sts[|sts| - 1];
      SettledInRuns(alg, opt, wnd, init);
      FinalKeeps(e, init);
      var e1 := Final(e, init);
      SettledReact(e1, last);
    }
  }

  lemma {:induction false} SettledReact(e: Endpoint, st: Stimulus)
    requires Inv(e) && Possible(e, st) && !e.alg.Reno? && Settled(e.alg, e.cc, e.snd.una)
    ensures Settled(e.alg, React(e, st).cc, React(e, st).snd.una)
  {
    hide React, Control, Raised;
    ReactKeeps(e, st);
    CcFollows(e, st);
    RaisedOk(e, st);
    match Raised(e, st)
    case None =>
    case Some(i) =>
      SettledStep(e.alg, e.cc, i, e.snd.una);
  }

  /** Tahoe, which has no recovery, keeps the floor over every run. */
  lemma {:induction false} TahoeFloor(opt: Options, wnd: u32, sts: seq<Stimulus>)
    requires Runs(Established(Tahoe, opt, wnd), sts)
    ensures Final(Established(Tahoe, opt, wnd), sts).cc.cwnd >= MSS
  {
    SettledInRuns(Tahoe, opt, wnd, sts);
  }

  // ---------- LSTM-Reno against NewReno in runs ----------

  /** In every state of every run and for every event, whatever the predictor says, the windows
      LSTM-Reno stores next are at most those NewReno would store: the carry that could reverse them
      needs a cwnd no run has outside recovery. */
  lemma {:induction false} LstmBelowInRuns(alg: Algorithm, opt: Options, wnd: u32, sts: seq<Stimulus>, st: Stimulus)
    requires Modern(alg) && Runs(Established(alg, opt, wnd), sts)
    requires Raised(Final(Established(alg, opt, wnd), sts), st).Some?
    ensures var e := Final(Established(alg, opt, wnd), sts); var i := Raised(e, st).value;
      var (l, la) := Control(LstmReno, e.cc, i); var (n, na) := Control(NewReno, e.cc, i);
      && l.cwnd <= n.cwnd && 2 * MSS <= l.ssthresh <= n.ssthresh
      && l.recover == n.recover && l.ca == n.ca && la == na
  {
    EstablishedInv(alg, opt, wnd);
    FinalKeeps(Established(alg, opt, wnd), sts);
    SettledInRuns(alg, opt, wnd, sts);
    var e := Final(Established(alg, opt, wnd), sts);
    RaisedOk(e, st);
    LstmBelow(e.cc, Raised(e, st).value, e.snd.una, alg);
  }

  lemma {:induction false} LstmBelow(c: Cc, i: Input, una: int, alg: Algorithm)
    requires Modern(alg) && InRange(c) && i.w.Ok() && Settled(alg, c, una) && una < STREAM_LIMIT
    requires i.ev.Ack? ==> i.ev.acked >= 1
    ensures var (l, la) := Control(LstmReno, c, i); var (n, na) := Control(NewReno, c, i);
      && l.cwnd <= n.cwnd && 2 * MSS <= l.ssthresh <= n.ssthresh
      && l.recover == n.recover && l.ca == n.ca && la == na
  {
    if c.ca.Recovery? {
      ControlInRange(NewReno, c, i);
    } else {
      LstmNeverMoreAggressive(c, i);
      if i.ev.Ack? {
        GrowthBound(c, i.ev.acked);
      }
    }
  }

  // ---------- the run that loses the floor ----------

  /** After the first byte, three duplicates and `n` more of them, while cwnd still fits. */
  function Inflated(n: nat): Endpoint {
    var e := Probing(NewReno, [0]);
    e.(cc := Cc(Ceiling(NewReno, 1, n + 1), 2 * MSS, 1, Recovery), dupacks := Min(n + 3, 255),
       tm := e.tm.(rtt := 0),
       hist := e.hist.(out := [Segment(0, 0, WIN, [0]), Segment(0, 0, WIN, [0])], rexmits := [Resent(0, 1, 1)]))
  }

  /** The same with cwnd as the 32-bit field stores it. */
  function Stored(e: Endpoint): Endpoint { e.(cc := e.cc.(cwnd := Wrap(e.cc.cwnd))) }

  lemma {:induction false} FurtherDup(n: nat)
    requires Inflated(n).cc.cwnd < TWO32
    ensures OnSegment(Inflated(n), DUP.s, None, false) == Stored(Inflated(n + 1))
  {
    hide Output;
    WindowFull(Stored(Inflated(n + 1)));
  }

  lemma {:induction false} FirstInflated()
    ensures Resending(NewReno, [0]) == Inflated(0)
  {
    hide NextCc;
    assert [0 as u8][..1] == [0];
    ThirdDupActs(NewReno, [0]);
  }

  lemma {:induction false} NextInflated(n: nat)
    requires Ceiling(NewReno, 1, n + 1) < TWO32
    ensures OnSegment(Inflated(n), DUP.s, None, false) == Stored(Inflated(n + 1))
    ensures Ceiling(NewReno, 1, n + 2) < TWO32 ==> Stored(Inflated(n + 1)) == Inflated(n + 1)
  {
    hide OnSegment;
    FurtherDup(n);
  }

  lemma {:induction false} ManyDups(n: nat)
    requires Ceiling(NewReno, 1, n + 1) < TWO32
    ensures var e := Established(NewReno, PLAIN, 1);
      Runs(e, Dups([0], n + 3)) && Final(e, Dups([0], n + 3)) == Inflated(n)
  {
    hide OnSegment, Inflated, Stored, Final, Runs, Dups, Established;
    if n == 0 {
      ThreeDups(NewReno, [0]);
      FirstInflated();
    } else {
      ManyDups(n - 1);
      DupsNext(NewReno, [0], n + 2);
      NextInflated(n - 1);
    }
  }

  /** A reachable collapse: one byte is sent, and 3067832 duplicate acknowledgements of it arrive. Under
      NewReno cwnd is then 304 bytes, less than one segment. */
  lemma {:induction false} CwndCollapses()
    ensures var e := Established(NewReno, PLAIN, 1);
      Runs(e, Dups([0], 3067832)) && Final(e, Dups([0], 3067832)).cc.cwnd == 304
  {
    hide OnSegment;
    ManyDups(3067828);
    DupsNext(NewReno, [0], 3067831);
    NextInflated(3067828);
  }
}
