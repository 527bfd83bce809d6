/** Fast recovery of NewReno and LSTM-Reno over whole runs of one endpoint, whatever arrives. */
module Recovery {
  import opened Serial
  import opened Reassembly
  import opened Congestion
  import opened RttEstimator
  import opened WindowScale
  import opened Endpoint
  import opened EndpointInvariant
  import opened Run

  /** Fast retransmit is entered between the two states. */
  predicate Enters(e: Endpoint, e': Endpoint) { !e.cc.ca.Recovery? && e'.cc.ca.Recovery? }

  /** Both states are in the same fast-recovery episode. */
  predicate Stays(e: Endpoint, e': Endpoint) { e.cc.ca.Recovery? && e'.cc.ca.Recovery? }

  /** What one step does to recovery: recover never moves back; entering needs una past the old
      recover, records max and retransmits una once; inside an episode recover is fixed and every
      retransmission is paid for by an advance of una; otherwise nothing is fast-retransmitted. */
  predicate Disciplined(e: Endpoint, e': Endpoint) {
    && e.cc.recover <= e'.cc.recover
    && (Enters(e, e') ==>
          && e.cc.recover < e.snd.una && e'.cc.recover == e.snd.max
          && e'.hist.rexmits == e.hist.rexmits + [Head(e.snd)])
    && (Stays(e, e') ==>
          && e'.cc.recover == e.cc.recover
          && |e'.hist.rexmits| - |e.hist.rexmits| <= e'.snd.una - e.snd.una)
    && (!Enters(e, e') && !Stays(e, e') ==> e'.hist.rexmits == e.hist.rexmits)
  }

  /** A step that touches neither congestion state nor una is disciplined, before or after another. */
  lemma {:induction false} SameIsDisciplined(e: Endpoint, e1: Endpoint, e2: Endpoint)
    requires Disciplined(e, e1) && SameRecovery(e1, e2)
    ensures Disciplined(e, e2)
  {
  }

  /** The discipline of one congestion event, decided by NextCc alone. */
  lemma {:induction false} EventDisciplined(e: Endpoint, e1: Endpoint, e2: Endpoint, ev: Event, fired: bool)
    requires Modern(e.alg) && RecoveryOk(e) && SenderOk(e.snd) && SenderOk(e1.snd)
    requires Ready(e1) && e1.alg == e.alg && e1.cc == e.cc && e1.hist == e.hist && e1.snd.max == e.snd.max
    requires e1.snd.stream == e.snd.stream
    requires match ev
             case Init => false
             case Ack(_) => e.snd.una < e1.snd.una
             case _ => e.snd.una == e1.snd.una
    requires var (c, act) := NextCc(e1, ev, fired);
      && e2.cc == c && e2.snd.una == e1.snd.una
      && e2.hist.rexmits == e1.hist.rexmits + if act == Retransmit then [Head(e1.snd)] else []
    ensures Disciplined(e, e2)
  {
  }

  lemma {:induction false} CongestDisciplined(e: Endpoint, e1: Endpoint, una: int, ev: Event, fired: bool)
    requires Modern(e.alg) && Inv(e) && Base(e1) && !e1.acknow && Slid(e, e1, una)
    requires match ev
             case Init => false
             case Ack(_) => e.snd.una < una && RecoveryMoved(e1)
             case DupAck(_) => e.snd.una == una && RecoveryOk(e1) && e1.snd.una != e1.snd.max
             case Timeout(_) => e.snd.una == una && RecoveryOk(e1)
    ensures Disciplined(e, Congest(e1, ev, fired))
  {
    CongestKeeps(e1, ev, fired);
    EventDisciplined(e, e1, Congest(e1, ev, fired), ev, fired);
  }

  lemma {:induction false} AckDisciplined(e: Endpoint, s: Segment, sample: Option<u32>, fired: bool)
    requires Inv(e) && Modern(e.alg)
    ensures Disciplined(e, HandleAck(e, s, sample, fired))
  {
    hide Congest;
    var wnd := FromField(e.opt.scaled, e.opt.peerScale, s.win);
    if e.snd.una < s.ack <= e.snd.max {
      SlideKeeps(e, s.ack, wnd, sample);
      CongestDisciplined(e, Slide(e, s.ack, wnd, sample), s.ack, Ack(s.ack - e.snd.una), fired);
    } else if s.ack == e.snd.una && wnd <= e.snd.wnd && s.payload == [] && e.snd.una != e.snd.max {
      var dups := Min(e.dupacks + 1, 255);
      CongestDisciplined(e, e.(snd := e.snd.(wnd := wnd), dupacks := dups), e.snd.una, DupAck(dups), fired);
    }
  }

  lemma {:induction false} ArrivalDisciplined(e: Endpoint, s: Segment, sample: Option<u32>, fired: bool)
    requires Inv(e) && Modern(e.alg)
    ensures Disciplined(e, OnSegment(e, s, sample, fired))
  {
    AckDisciplined(e, s, sample, fired);
    HandleAckKeeps(e, s, sample, fired);
    var e1 := HandleAck(e, s, sample, fired);
    if s.payload == [] {
      OutputKeeps(e1);
    } else {
      HandleDataKeeps(e1, s);
    }
    SameIsDisciplined(e, e1, OnSegment(e, s, sample, fired));
  }

  lemma {:induction false} TickDisciplined(e: Endpoint, fired: bool)
    requires Inv(e) && Modern(e.alg) && (e.tm.rexmt == 1 ==> e.tm.shift < MAX_SHIFT)
    ensures Disciplined(e, OnTick(e, fired))
  {
    hide OnTick;
    OnTickKeeps(e, fired);
  }

  /** Every handler keeps the discipline, on any stimulus. */
  lemma {:induction false} ReactDisciplined(e: Endpoint, st: Stimulus)
    requires Inv(e) && Possible(e, st) && Modern(e.alg)
    ensures Disciplined(e, React(e, st))
  {
    match st
    case Arrival(s, sample, fired) =>
      ArrivalDisciplined(e, s, sample, fired);
    case AppSend(data) =>
      OnSendKeeps(e, data);
    case AppRead(len) =>
      OnReadKeeps(e, len);
    case Clock(fired) =>
      TickDisciplined(e, fired);
  }

  // ---------- whole runs ----------

  lemma {:induction false} StepDisciplined(run: seq<Endpoint>, k: nat)
    requires IsRun(run) && k + 1 < |run| && Modern(run[0].alg)
    ensures Disciplined(run[k], run[k + 1])
  {
    RunInv(run, k);
    var st := RunStep(run, k);
    ReactDisciplined(run[k], st);
  }

  /** In recovery, una < recover <= max, in every state of every run. */
  lemma {:induction false} RecoveryBracket(run: seq<Endpoint>, k: nat)
    requires IsRun(run) && k < |run| && Modern(run[0].alg) && run[k].cc.ca.Recovery?
    ensures run[k].snd.una < run[k].cc.recover <= run[k].snd.max
  {
    RunInv(run, k);
  }

  lemma {:induction false} RecoverMonotone(run: seq<Endpoint>, i: nat, j: nat)
    requires IsRun(run) && i <= j < |run| && Modern(run[0].alg)
    ensures run[i].cc.recover <= run[j].cc.recover
  {
    if i < j {
      RecoverMonotone(run, i, j - 1);
      RunInv(run, j - 1);
      StepDisciplined(run, j - 1);
    }
  }

  /** Two fast-retransmit entries are separated by una passing the max recorded at the earlier one. */
  lemma {:induction false} EntriesSeparated(run: seq<Endpoint>, i: nat, j: nat)
    requires IsRun(run) && i < j && j + 1 < |run| && Modern(run[0].alg)
    requires Enters(run[i], run[i + 1]) && Enters(run[j], run[j + 1])
    ensures run[j].snd.una > run[i].snd.max
  {
    RunInv(run, i);
    StepDisciplined(run, i);
    RecoverMonotone(run, i + 1, j);
    RunInv(run, j);
    StepDisciplined(run, j);
  }

  /** The sequence numbers fast-retransmitted in a run strictly increase. */
  lemma {:induction false} RetransmissionsIncrease(run: seq<Endpoint>, k: nat)
    requires IsRun(run) && k < |run| && Modern(run[0].alg)
    ensures Increasing(run[k].hist.rexmits)
  {
    RunInv(run, k);
  }

  /** Within one episode recover is fixed, and recover - una bounds the partial ACKs still to come:
      the retransmissions made so far never exceed the distance una has covered. */
  lemma {:induction false} EpisodeMeasure(run: seq<Endpoint>, i: nat, j: nat)
    requires IsRun(run) && i <= j < |run| && Modern(run[0].alg)
    requires forall k :: i <= k <= j ==> run[k].cc.ca.Recovery?
    ensures run[j].cc.recover == run[i].cc.recover
    ensures |run[j].hist.rexmits| - |run[i].hist.rexmits| <= run[j].snd.una - run[i].snd.una
    ensures run[j].snd.una - run[i].snd.una < run[i].cc.recover - run[i].snd.una
  {
    RunInv(run, j);
    if i < j {
      EpisodeMeasure(run, i, j - 1);
      RunInv(run, j - 1);
      StepDisciplined(run, j - 1);
      assert Stays(run[j - 1], run[j]);
    }
  }
}
