/** Runs of one endpoint: the handlers as stimuli, what every one of them keeps, and the congestion
    event each of them raises. */
module Run {
  import opened Serial
  import opened Ring
  import opened Reassembly
  import opened Congestion
  import opened RttEstimator
  import opened WindowScale
  import opened Endpoint
  import opened EndpointInvariant

  /** One lock-held handler call; what arrives is arbitrary. */
  datatype Stimulus =
    | Arrival(s: Segment, sample: Option<u32>, fired: bool)
    | AppSend(data: Bytes)
    | AppRead(len: nat)
    | Clock(fired: bool)

  /** A blocked call is a disabled step; the sender's code is exact below STREAM_LIMIT, and the backoff
      table has no entry for a thirteenth expiration. */
  predicate Possible(e: Endpoint, st: Stimulus) {
    match st
    case Arrival(s, sample, fired) => true
    case AppSend(data) => 0 < |data| <= SendRoom(e) && |e.snd.stream| + |data| < STREAM_LIMIT
    case AppRead(len) => e.rcv.unread != []
    case Clock(fired) => e.tm.rexmt == 1 ==> e.tm.shift < MAX_SHIFT
  }

  function React(e: Endpoint, st: Stimulus): (e': Endpoint)
    requires Ready(e) && Possible(e, st)
    ensures Ready(e')
  {
    match st
    case Arrival(s, sample, fired) => OnSegment(e, s, sample, fired)
    case AppSend(data) => OnSend(e, data)
    case AppRead(len) => OnRead(e, len)
    case Clock(fired) => OnTick(e, fired)
  }

  /** Where a stimulus takes una. */
  function UnaAfter(e: Endpoint, st: Stimulus): int {
    if st.Arrival? then NextUna(e, st.s.ack) else e.snd.una
  }

  /** Every handler keeps the invariant, on any stimulus. */
  lemma {:induction false} ReactKeeps(e: Endpoint, st: Stimulus)
    requires Inv(e) && Possible(e, st)
    ensures var e' := React(e, st);
      && Inv(e') && Grows(e, e') && FreshFromBuffer(e, e')
      && e'.snd.una == UnaAfter(e, st)
      && e'.snd.stream == e.snd.stream + if st.AppSend? then st.data else []
  {
    match st
    case Arrival(s, sample, fired) =>
      OnSegmentKeeps(e, s, sample, fired);
    case AppSend(data) =>
      OnSendKeeps(e, data);
    case AppRead(len) =>
      OnReadKeeps(e, len);
    case Clock(fired) =>
      OnTickKeeps(e, fired);
  }

  // ---------- runs as states ----------

  ghost predicate StepAt(run: seq<Endpoint>, k: nat)
    requires k + 1 < |run|
  {
    exists st :: Ready(run[k]) && Possible(run[k], st) && run[k + 1] == React(run[k], st)
  }

  ghost predicate IsRun(run: seq<Endpoint>) {
    && run != []
    && (exists alg, opt, wnd :: run[0] == Established(alg, opt, wnd))
    && forall k: nat :: k + 1 < |run| ==> StepAt(run, k)
  }

  lemma {:induction false} RunStep(run: seq<Endpoint>, k: nat) returns (st: Stimulus)
    requires IsRun(run) && k + 1 < |run| && Inv(run[k])
    ensures Possible(run[k], st) && run[k + 1] == React(run[k], st)
    ensures Inv(run[k + 1]) && run[k + 1].alg == run[k].alg
  {
    assert StepAt(run, k);
    st :| Possible(run[k], st) && run[k + 1] == React(run[k], st);
    ReactKeeps(run[k], st);
  }

  lemma {:induction false} RunInv(run: seq<Endpoint>, k: nat)
    requires IsRun(run) && k < |run|
    ensures Inv(run[k]) && run[k].alg == run[0].alg
  {
    if k > 0 {
      hide Inv, React;
      RunInv(run, k - 1);
      var _ := RunStep(run, k - 1);
    } else {
      var alg, opt, wnd :| run[0] == Established(alg, opt, wnd);
      EstablishedInv(alg, opt, wnd);
    }
  }

  // ---------- runs as stimuli ----------

  /** Every stimulus of the sequence is possible in its turn. */
  predicate Runs(e: Endpoint, sts: seq<Stimulus>)
    requires Ready(e)
    decreases |sts|, 0
  {
    sts == [] ||
    var init := sts[..|sts| - 1];
    Runs(e, init) && Possible(Final(e, init), sts[|sts| - 1])
  }

  /** The state after a sequence of stimuli. */
  function Final(e: Endpoint, sts: seq<Stimulus>): (e': Endpoint)
    requires Ready(e) && Runs(e, sts)
    ensures Ready(e')
    decreases |sts|, 1
  {
    if sts == [] then e else React(Final(e, sts[..|sts| - 1]), sts[|sts| - 1])
  }

  lemma {:induction false} RunsAppend(e: Endpoint, sts: seq<Stimulus>, st: Stimulus)
    requires Ready(e) && Runs(e, sts) && Possible(Final(e, sts), st)
    ensures Runs(e, sts + [st]) && Final(e, sts + [st]) == React(Final(e, sts), st)
  {
    hide React, Possible;
    assert (sts + [st])[..|sts|] == sts;
  }

  lemma {:induction false} RunsLast(e: Endpoint, sts: seq<Stimulus>, st: Stimulus)
    requires Ready(e) && Runs(e, sts + [st])
    ensures Runs(e, sts) && Possible(Final(e, sts), st)
    ensures Final(e, sts + [st]) == React(Final(e, sts), st)
  {
    hide React, Possible;
    assert (sts + [st])[..|sts|] == sts;
  }

  lemma {:induction false} RunsPrefix(e: Endpoint, sts: seq<Stimulus>, k: nat)
    requires Ready(e) && Runs(e, sts) && k <= |sts|
    ensures Runs(e, sts[..k])
    decreases |sts|
  {
    if k < |sts| {
      RunsPrefix(e, sts[..|sts| - 1], k);
      assert sts[..|sts| - 1][..k] == sts[..k];
    } else {
      assert sts[..k] == sts;
    }
  }

  /** A run in two parts. */
  lemma {:induction false} RunsSplit(e: Endpoint, sts: seq<Stimulus>, more: seq<Stimulus>)
    requires Ready(e) && Runs(e, sts + more)
    ensures Runs(e, sts) && Runs(Final(e, sts), more) && Final(Final(e, sts), more) == Final(e, sts + more)
    decreases |more|
  {
    if more == [] {
      assert sts + more == sts;
    } else {
      hide React, Possible, Runs, Final;
      var init, last := more[..|more| - 1], more[|more| - 1];
      assert sts + more == (sts + init) + [last] && more == init + [last];
      RunsLast(e, sts + init, last);
      RunsSplit(e, sts, init);
      RunsAppend(Final(e, sts), init, last);
    }
  }

  /** Whatever the stimuli, a run keeps the invariant and acknowledges what it had received. */
  lemma {:induction false} FinalKeeps(e: Endpoint, sts: seq<Stimulus>)
    requires Inv(e) && Runs(e, sts)
    ensures Inv(Final(e, sts)) && Grows(e, Final(e, sts)) && FreshAcks(e, Final(e, sts))
  {
    if sts != [] {
      hide Inv, React;
      var init, last := sts[..|sts| - 1], sts[|sts| - 1];
      FinalKeeps(e, init);
      var e1 := Final(e, init);
      ReactKeeps(e1, last);
      GrowsTransitive(e, e1, React(e1, last));
      FreshAcksTransitive(e, e1, React(e1, last));
    }
  }

  lemma {:induction false} FreshAcksTransitive(a: Endpoint, b: Endpoint, c: Endpoint)
    requires Grows(a, b) && Grows(b, c) && FreshAcks(a, b) && FreshAcks(b, c)
    ensures FreshAcks(a, c)
  {
  }

  // ---------- the congestion events of a run ----------

  /** The congestion event a stimulus raises, with the flight as the handler has left it by then. */
  function Raised(e: Endpoint, st: Stimulus): Option<Input> {
    match st
    case Arrival(s, _, fired) =>
      if e.snd.una < s.ack <= e.snd.max then
        Some(Input(Ack(s.ack - e.snd.una), Flight(s.ack, Max(e.snd.nxt, s.ack), e.snd.max), fired))
      else if s.ack == e.snd.una && FromField(e.opt.scaled, e.opt.peerScale, s.win) <= e.snd.wnd
              && s.payload == [] && e.snd.una != e.snd.max then
        Some(Input(DupAck(Min(e.dupacks + 1, 255)), Flight(e.snd.una, e.snd.nxt, e.snd.max), fired))
      else None
    case Clock(fired) =>
      if e.tm.rexmt == 1 && e.snd.una <= e.snd.nxt then
        Some(Input(Timeout(e.snd.nxt - e.snd.una), Flight(e.snd.una, e.snd.una, e.snd.max), fired))
      else None
    case _ => None
  }

  /** The congestion state a stimulus leads to. */
  function CcAfter(e: Endpoint, st: Stimulus): Cc
    requires e.cc.ssthresh > 0
  {
    match Raised(e, st)
    case None => e.cc
    case Some(i) => Control(e.alg, e.cc, i).0
  }

  /** This segment counts as a duplicate acknowledgement. */
  predicate Repeats(e: Endpoint, s: Segment) {
    && s.ack == e.snd.una && FromField(e.opt.scaled, e.opt.peerScale, s.win) <= e.snd.wnd
    && s.payload == [] && e.snd.una != e.snd.max
  }

  /** This segment acknowledges new data. */
  predicate Advances(e: Endpoint, s: Segment) { e.snd.una < s.ack <= e.snd.max }

  lemma {:induction false} AckDupacks(e: Endpoint, s: Segment, sample: Option<u32>, fired: bool)
    requires Inv(e)
    ensures HandleAck(e, s, sample, fired).dupacks ==
      if Advances(e, s) then 0 else if Repeats(e, s) then Min(e.dupacks + 1, 255) else e.dupacks
  {
    hide Congest, FromField;
    var wnd := FromField(e.opt.scaled, e.opt.peerScale, s.win);
    if Advances(e, s) {
      SlideKeeps(e, s.ack, wnd, sample);
      CongestKeeps(Slide(e, s.ack, wnd, sample), Ack(s.ack - e.snd.una), fired);
    } else if Repeats(e, s) {
      var dups := Min(e.dupacks + 1, 255);
      CongestKeeps(e.(snd := e.snd.(wnd := wnd), dupacks := dups), DupAck(dups), fired);
    }
  }

  lemma {:induction false} AckRaises(e: Endpoint, s: Segment, sample: Option<u32>, fired: bool)
    requires Inv(e)
    ensures HandleAck(e, s, sample, fired).cc == CcAfter(e, Arrival(s, sample, fired))
  {
    hide Congest, Control, FromField;
    var wnd := FromField(e.opt.scaled, e.opt.peerScale, s.win);
    if e.snd.una < s.ack <= e.snd.max {
      SlideKeeps(e, s.ack, wnd, sample);
      CongestKeeps(Slide(e, s.ack, wnd, sample), Ack(s.ack - e.snd.una), fired);
    } else if s.ack == e.snd.una && wnd <= e.snd.wnd && s.payload == [] && e.snd.una != e.snd.max {
      var dups := Min(e.dupacks + 1, 255);
      CongestKeeps(e.(snd := e.snd.(wnd := wnd), dupacks := dups), DupAck(dups), fired);
    }
  }

  /** The congestion state moves by the raised event and by nothing else. */
  lemma {:induction false} CcFollows(e: Endpoint, st: Stimulus)
    requires Inv(e) && Possible(e, st)
    ensures React(e, st).cc == CcAfter(e, st)
  {
    match st
    case Arrival(s, sample, fired) =>
      hide HandleAck;
      AckRaises(e, s, sample, fired);
      HandleAckKeeps(e, s, sample, fired);
      var e1 := HandleAck(e, s, sample, fired);
      if s.payload == [] {
        OutputKeeps(e1);
      } else {
        HandleDataKeeps(e1, s);
      }
    case AppSend(data) =>
      OnSendKeeps(e, data);
    case AppRead(len) =>
      OnReadKeeps(e, len);
    case Clock(fired) =>
      OnTickKeeps(e, fired);
  }
}
