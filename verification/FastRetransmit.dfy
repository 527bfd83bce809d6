/** Fast retransmit: duplicate acknowledgements are counted from the last new one, and a fast
    retransmission happens exactly when the algorithm calls for it. */
module FastRetransmit {
  import opened Serial
  import opened Ring
  import opened Reassembly
  import opened Congestion
  import opened WindowScale
  import opened Endpoint
  import opened Burst
  import opened EndpointInvariant
  import opened Run

  // ---------- counting duplicates ----------

  predicate AdvancesOn(e: Endpoint, st: Stimulus) { st.Arrival? && Advances(e, st.s) }

  predicate RepeatsOn(e: Endpoint, st: Stimulus) { st.Arrival? && Repeats(e, st.s) }

  lemma {:induction false} DataDupacks(e: Endpoint, s: Segment)
    requires Inv(e) && s.payload != []
    ensures HandleData(e, s).dupacks == e.dupacks
  {
    ArriveConsistent(e.rcv, s.pos, s.payload);
    var (r, outcome) := Arrive(e.rcv, s.pos, s.payload);
    TakeKeeps(e, r);
    hide Output;
    match outcome
    case Duplicate =>
      OutputKeeps(e.(acknow := true));
    case NoSpace =>
    case OutOfOrder =>
      OutputKeeps(e.(rcv := r, acknow := true));
    case Accepted(gap) =>
      OutputKeeps(Acknowledge(e.(rcv := r), gap));
  }

  /** Only acknowledgements move the count: a new one clears it, a repeated one adds one, up to 255. */
  lemma {:induction false} DupacksStep(e: Endpoint, st: Stimulus)
    requires Inv(e) && Possible(e, st)
    ensures React(e, st).dupacks ==
      if AdvancesOn(e, st) then 0 else if RepeatsOn(e, st) then Min(e.dupacks + 1, 255) else e.dupacks
  {
    hide HandleAck, HandleData, Output, OnTick;
    match st
    case Arrival(s, sample, fired) =>
      AckDupacks(e, s, sample, fired);
      HandleAckKeeps(e, s, sample, fired);
      var e1 := HandleAck(e, s, sample, fired);
      if s.payload == [] {
        OutputKeeps(e1);
      } else {
        DataDupacks(e1, s);
      }
    case AppSend(data) =>
      SendDupacks(e, data);
    case AppRead(len) =>
      ReadDupacks(e, len);
    case Clock(fired) =>
      OnTickKeeps(e, fired);
  }

  lemma {:induction false} SendDupacks(e: Endpoint, data: Bytes)
    requires Inv(e) && Possible(e, AppSend(data))
    ensures OnSend(e, data).dupacks == e.dupacks
  {
    OutputClosedForm(e.(snd := e.snd.(stream := e.snd.stream + data)));
    hide Output;
  }

  lemma {:induction false} ReadDupacks(e: Endpoint, len: nat)
    requires Inv(e)
    ensures OnRead(e, len).dupacks == e.dupacks
  {
    var (r, bytes) := TakeUnread(e.rcv, len);
    OutputClosedForm(e.(rcv := r, hist := e.hist.(read := e.hist.read + bytes), acknow := true));
    hide Output;
  }

  /** The repeated acknowledgements in a run. */
  function Repetitions(e: Endpoint, sts: seq<Stimulus>): nat
    requires Ready(e) && Runs(e, sts)
  {
    if sts == [] then 0
    else
      var n := |sts| - 1;
      Repetitions(e, sts[..n]) + if RepeatsOn(Final(e, sts[..n]), sts[n]) then 1 else 0
  }

  /** snd_una does not move over the whole run. */
  ghost predicate Stuck(e: Endpoint, sts: seq<Stimulus>)
    requires Ready(e) && Runs(e, sts)
  {
    sts == [] ||
    var n := |sts| - 1;
    Stuck(e, sts[..n]) && !AdvancesOn(Final(e, sts[..n]), sts[n])
  }

  /** t_dupacks is the number of repeated acknowledgements since snd_una last moved, up to 255. */
  lemma {:induction false} DupacksCount(e: Endpoint, sts: seq<Stimulus>)
    requires Inv(e) && e.dupacks == 0 && Runs(e, sts) && Stuck(e, sts)
    ensures Final(e, sts).dupacks == Min(Repetitions(e, sts), 255)
  {
    if sts != [] {
      hide React, Inv, AdvancesOn, RepeatsOn;
      var init, last := sts[..|sts| - 1], sts[|sts| - 1];
      DupacksCount(e, init);
      FinalKeeps(e, init);
      DupacksStep(Final(e, init), last);
    }
  }

  // ---------- when a fast retransmission happens ----------

  /** The third duplicate in a row, where the algorithm lets it start a retransmission; or, in NewReno's
      recovery, an acknowledgement that stops short of the recovery point. */
  predicate Calls(e: Endpoint, st: Stimulus) {
    st.Arrival? &&
    (|| (Repeats(e, st.s) && e.dupacks == 2 && (Modern(e.alg) ==> e.snd.una > e.cc.recover))
     || (Advances(e, st.s) && Modern(e.alg) && e.cc.ca.Recovery? && st.s.ack < e.cc.recover))
  }

  /** The events on which an algorithm asks for a retransmission. */
  lemma {:induction false} EventRetransmits(alg: Algorithm, c: Cc, i: Input)
    requires c.ssthresh > 0
    ensures Control(alg, c, i).1 == Retransmit <==>
      match i.ev
      case DupAck(n) => n == 3 && (Modern(alg) ==> i.w.una > c.recover)
      case Ack(_) => Modern(alg) && c.ca.Recovery? && i.w.una < c.recover
      case _ => false
  {
  }

  lemma {:induction false} NewAckRetransmits(e: Endpoint, ack: int, wnd: u32, sample: Option<u32>, fired: bool)
    requires Inv(e) && e.snd.una < ack <= e.snd.max
    ensures NewAck(e, ack, wnd, sample, fired).hist.rexmits == e.hist.rexmits +
      if Modern(e.alg) && e.cc.ca.Recovery? && ack < e.cc.recover then [Head(e.snd.(una := ack))] else []
  {
    hide Slide, Congest, Control;
    var e1 := Slide(e, ack, wnd, sample);
    SlideKeeps(e, ack, wnd, sample);
    hide Base, RecoveryMoved;
    EventRetransmits(e.alg, e.cc, Input(Ack(ack - e.snd.una), Flight(ack, e1.snd.nxt, e1.snd.max), fired));
    CongestKeeps(e1, Ack(ack - e.snd.una), fired);
  }

  lemma {:induction false} RepeatRetransmits(e: Endpoint, wnd: u32, fired: bool)
    requires Inv(e) && e.snd.una != e.snd.max
    ensures RepeatedAck(e, wnd, fired).hist.rexmits == e.hist.rexmits +
      if e.dupacks == 2 && (Modern(e.alg) ==> e.snd.una > e.cc.recover) then [Head(e.snd)] else []
  {
    hide Congest, Control;
    var dups := Min(e.dupacks + 1, 255);
    var e1 := e.(snd := e.snd.(wnd := wnd), dupacks := dups);
    EventRetransmits(e.alg, e.cc, Input(DupAck(dups), Flight(e.snd.una, e.snd.nxt, e.snd.max), fired));
    CongestKeeps(e1, DupAck(dups), fired);
  }

  lemma {:induction false} AckRetransmits(e: Endpoint, s: Segment, sample: Option<u32>, fired: bool)
    requires Inv(e)
    ensures var e' := HandleAck(e, s, sample, fired);
      e'.hist.rexmits == e.hist.rexmits +
        if Calls(e, Arrival(s, sample, fired)) then [Head(e.snd.(una := NextUna(e, s.ack)))] else []
  {
    assert Ready(e);
    hide NewAck, RepeatedAck, FromField;
    var wnd := FromField(e.opt.scaled, e.opt.peerScale, s.win);
    if Advances(e, s) {
      NewAckRetransmits(e, s.ack, wnd, sample, fired);
    } else if Repeats(e, s) {
      RepeatRetransmits(e, wnd, fired);
      assert e.snd.(una := e.snd.una) == e.snd;
    }
  }

  /** A handler fast-retransmits exactly when it is called for, and then once: up to one segment of the
      send buffer from the acknowledged position on. */
  lemma {:induction false} RetransmitsIff(e: Endpoint, st: Stimulus)
    requires Inv(e) && Possible(e, st)
    ensures var e' := React(e, st); var una := UnaAfter(e, st);
      e'.hist.rexmits == e.hist.rexmits +
        if Calls(e, st) then [Resent(una, una + Min(|e.snd.stream| - una, MSS), e.snd.max)] else []
  {
    hide HandleAck, HandleData, Output, OnTick;
    match st
    case Arrival(s, sample, fired) =>
      AckRetransmits(e, s, sample, fired);
      HandleAckKeeps(e, s, sample, fired);
      var e1 := HandleAck(e, s, sample, fired);
      if s.payload == [] {
        OutputKeeps(e1);
      } else {
        HandleDataKeeps(e1, s);
      }
    case AppSend(data) =>
      OnSendKeeps(e, data);
    case AppRead(len) =>
      OnReadKeeps(e, len);
    case Clock(fired) =>
      OnTickKeeps(e, fired);
  }

  /** What it puts on the wire. */
  lemma {:induction false} RetransmitExact(e: Endpoint)
    requires Ready(e)
    ensures var e' := RetransmitHead(e); var n := Min(|e.snd.stream| - e.snd.una, MSS);
      && |e'.hist.out| == |e.hist.out| + 1 && e.hist.out <= e'.hist.out
      && e'.hist.out[|e.hist.out|] ==
           Segment(e.snd.una, e.rcv.nxt, Window(e), e.snd.stream[e.snd.una..e.snd.una + n])
  {
  }
}
