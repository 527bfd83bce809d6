/** A run of two endpoints in which the peer accepts bytes past the sender's snd_max, and the stall that
    can follow. */
module PastMax {
  import opened Serial
  import opened Reassembly
  import opened Congestion
  import opened Endpoint
  import opened Burst
  import opened EndpointInvariant
  import opened Run
  import opened Probe
  import opened Connection
  import opened FlowControl

  // ---------- the stall ----------

  /** Two bytes are written against a window of one, the first is sent, three duplicates make NewReno
      resend both: from then on, if only acknowledgements of both arrive, the sender never moves. */
  lemma {:induction false} ProbeStalls(sts: seq<Stimulus>)
    requires Runs(Established(NewReno, PLAIN, 1), Dups([0, 0], 3) + sts) && Ignored(sts, 1)
    ensures var s := Final(Established(NewReno, PLAIN, 1), Dups([0, 0], 3) + sts).snd;
      s.una == 0 && s.max == 1 && s.wnd == 1
  {
    hide Final, Runs, Dups, Inv, Resending;
    ProbeSend();
    var e := Established(NewReno, PLAIN, 1);
    EstablishedInv(NewReno, PLAIN, 1);
    ThreeDups(NewReno, [0, 0]);
    FinalKeeps(e, Dups([0, 0], 3));
    RunsSplit(e, Dups([0, 0], 3), sts);
    StalledForGood(Final(e, Dups([0, 0], 3)), sts);
  }

  lemma {:induction false} ProbeSend()
    ensures Resending(NewReno, [0, 0]).snd == Send([0, 0], 0, 1, 1, 1)
  {
    hide NextCc;
  }

  // ---------- the run ----------

  /** Timestamps on, so that no tick sample is taken; nothing is scaled. */
  const STAMPED := Options(false, 0, true)

  const START := Established(NewReno, STAMPED, WIN)

  /** The peer's only pure acknowledgement, and the sender's three segments. */
  const ACK := Segment(0, 1, WIN, [])
  const FIRST := Segment(0, 0, WIN, [0])
  const SECOND := Segment(1, 0, WIN, [0])
  const BOTH := Segment(1, 0, WIN, [0, 0])

  const SLOW_START := Cc(MSS * IW + 1, SSTHRESH_MAX, -1, Open)

  /** The sender's state as far as the run depends on it. */
  ghost predicate Sender(e: Endpoint, snd: Send, cc: Cc, dups: nat, out: seq<Segment>) {
    && Inv(e) && Ready(e) && e.alg == NewReno && e.opt == STAMPED && e.rcv == Receive(0, [], [])
    && e.snd == snd && e.cc == cc && e.dupacks == dups && e.hist.out == out
  }

  /** A call that finds nothing to send. */
  lemma {:induction false} NoChunk(e: Endpoint)
    requires Ready(e) && !e.acknow && Chunk(e) == 0
    ensures Output(e) == e
  {
    assert e.(acknow := false) == e;
  }

  /** A call that sends one segment. */
  lemma {:induction false} OneChunk(e: Endpoint)
    requires Ready(e) && !e.acknow && Chunk(e) > 0 && Chunk(Pass(e, Chunk(e))) == 0
    ensures Output(e) == Pass(e, Chunk(e))
  {
    assert e.(acknow := false) == e;
    var e1 := Pass(e, Chunk(e));
    assert OutputLoop(e1, false) == e1;
  }

  /** The application writes one byte and the pipe is empty. */
  lemma {:induction false} WriteSent(e: Endpoint, snd: Send, cc: Cc, out: seq<Segment>)
    requires Sender(e, snd, cc, 0, out) && snd.una == snd.nxt == snd.max == |snd.stream| < 10
    requires snd.wnd == WIN && cc.cwnd >= MSS
    ensures Possible(e, AppSend([0]))
    ensures var n := |snd.stream|;
      Sender(OnSend(e, [0]), Send(snd.stream + [0], n, n + 1, n + 1, WIN), cc, 0, out + [Segment(n, 0, WIN, [0])])
  {
    hide Output;
    OnSendKeeps(e, [0]);
    var e1 := e.(snd := snd.(stream := snd.stream + [0]));
    assert Chunk(e1) == 1;
    var e2 := Pass(e1, 1);
    assert Chunk(e2) == 0;
    OneChunk(e1);
    hide Chunk, Base;
    assert (snd.stream + [0])[|snd.stream|..|snd.stream| + 1] == [0];
  }

  /** The application writes one byte while another is in flight: Nagle holds it back. */
  lemma {:induction false} WriteHeld(e: Endpoint, snd: Send, cc: Cc, out: seq<Segment>)
    requires Sender(e, snd, cc, 0, out) && snd.una < snd.nxt == |snd.stream| < 10
    ensures Possible(e, AppSend([0]))
    ensures Sender(OnSend(e, [0]), snd.(stream := snd.stream + [0]), cc, 0, out)
  {
    OnSendKeeps(e, [0]);
    var e1 := e.(snd := snd.(stream := snd.stream + [0]));
    assert Chunk(e1) == 0;
    NoChunk(e1);
  }

  /** The first byte is acknowledged. */
  lemma {:induction false} FirstAcked(e: Endpoint)
    requires Sender(e, Send([0], 0, 1, 1, WIN), Cc(MSS * IW, SSTHRESH_MAX, -1, Open), 0, [FIRST])
    ensures Sender(OnSegment(e, ACK, None, false), Send([0], 1, 1, 1, WIN), SLOW_START, 0, [FIRST])
  {
    OnSegmentKeeps(e, ACK, None, false);
    var e1 := Slide(e, 1, WIN, None);
    assert NextCc(e1, Ack(1), false) == (SLOW_START, Quiet);
    var e2 := e1.(cc := SLOW_START);
    assert HandleAck(e, ACK, None, false) == e2;
    hide HandleAck, Slide, NextCc;
    NoChunk(e2);
  }

  const FLIGHT := Send([0, 0, 0], 1, 2, 2, WIN)

  /** The same acknowledgement comes again. */
  lemma {:induction false} AckRepeated(e: Endpoint, n: nat)
    requires Sender(e, FLIGHT, SLOW_START, n, [FIRST, SECOND]) && n < 2
    ensures Sender(OnSegment(e, ACK, None, false), FLIGHT, SLOW_START, n + 1, [FIRST, SECOND])
  {
    OnSegmentKeeps(e, ACK, None, false);
    var e1 := e.(dupacks := n + 1);
    assert NextCc(e1, DupAck(n + 1), false) == (SLOW_START, Quiet);
    assert HandleAck(e, ACK, None, false) == e1;
    hide HandleAck, NextCc;
    NoChunk(e1);
  }

  const RECOVERING := Cc(5 * MSS, 2 * MSS, 2, Recovery)

  /** For the third time: both remaining bytes are sent, one of them past snd_max. */
  lemma {:induction false} AckThrice(e: Endpoint)
    requires Sender(e, FLIGHT, SLOW_START, 2, [FIRST, SECOND])
    ensures Sender(OnSegment(e, ACK, None, false), FLIGHT, RECOVERING, 3, [FIRST, SECOND, BOTH])
  {
    OnSegmentKeeps(e, ACK, None, false);
    var e1 := e.(dupacks := 3);
    assert NextCc(e1, DupAck(3), false) == (RECOVERING, Retransmit);
    var e2 := HandleAck(e, ACK, None, false);
    assert [0 as u8, 0, 0][1..3] == [0, 0];
    assert e2.hist.out == [FIRST, SECOND] + [BOTH];
    assert e2.snd == FLIGHT && e2.cc == RECOVERING && !e2.acknow;
    hide HandleAck, NextCc;
    NoChunk(e2);
  }

  /** The receiver's state as far as the run depends on it. */
  ghost predicate Receiver(e: Endpoint, rcv: Receive, out: seq<Segment>) {
    && Inv(e) && Ready(e) && e.opt == STAMPED && e.snd == Send([], 0, 0, 0, WIN)
    && e.rcv == rcv && e.hist.out == out
  }

  /** The next bytes arrive in order. */
  lemma {:induction false} Delivered(e: Endpoint, rcv: Receive, out: seq<Segment>, s: Segment)
    requires Receiver(e, rcv, out) && rcv.unread == [] && rcv.ooo == []
    requires s.pos == rcv.nxt && s.ack == 0 && s.win == WIN && 0 < |s.payload| < 10
    ensures OnSegment(e, s, None, false).rcv == Receive(rcv.nxt + |s.payload|, s.payload, [])
    ensures !e.delayed && e.dupacks == 0 ==>
      && Receiver(OnSegment(e, s, None, false), Receive(rcv.nxt + |s.payload|, s.payload, []), out)
      && OnSegment(e, s, None, false).dupacks == 0
  {
    OnSegmentKeeps(e, s, None, false);
    assert HandleAck(e, s, None, false) == e;
    assert s.payload[0..] == s.payload && [] + s.payload == s.payload;
    var r := Receive(rcv.nxt + |s.payload|, s.payload, []);
    assert Arrive(rcv, s.pos, s.payload) == (r, Accepted(false));
    if !e.delayed && e.dupacks == 0 {
      var e1 := Acknowledge(e.(rcv := r), false);
      assert Chunk(e1) == 0;
      NoChunk(e1);
    }
  }

  /** Reading the only byte opens the window and acknowledges it. */
  lemma {:induction false} ReadAcks(e: Endpoint)
    requires Receiver(e, Receive(1, [0], []), [])
    ensures Possible(e, AppRead(1))
    ensures Receiver(OnRead(e, 1), Receive(1, [], []), [ACK]) && !OnRead(e, 1).delayed
    ensures OnRead(e, 1).dupacks == e.dupacks
  {
    OnReadKeeps(e, 1);
    var (r, bytes) := TakeUnread(e.rcv, 1);
    assert r == Receive(1, [], []);
    var e1 := e.(rcv := r, hist := e.hist.(read := e.hist.read + bytes), acknow := true);
    var e0 := e1.(acknow := false);
    assert Chunk(e0) == 0;
    assert e0.snd.stream[0..0] == [];
    assert Output(e1) == Emit(CancelDelayed(e0), 0, 0);
    assert Output(e1).hist.out == [] + [ACK];
  }

  lemma {:induction false} Extend(run: seq<Connection>, c: Connection)
    requires IsConnectionRun(run) && Next(run[|run| - 1], c)
    ensures IsConnectionRun(run + [c])
  {
    var run' := run + [c];
    forall k: nat | k + 1 < |run'|
      ensures StepsAt(run', k)
    {
      if k + 1 < |run| {
        assert StepsAt(run, k);
      }
    }
  }

  /** The run goes on with a step of side A. */
  lemma {:induction false} StepA(run: seq<Connection>, st: Stimulus) returns (run': seq<Connection>)
    requires IsConnectionRun(run) && var c := run[|run| - 1]; Offered(c.a, c.b, st)
    ensures IsConnectionRun(run') && |run'| == |run| + 1
    ensures var c, c' := run[|run| - 1], run'[|run|]; c'.b == c.b && c'.a == React(c.a, st)
  {
    hide React;
    var c := run[|run| - 1];
    var c' := Connection(React(c.a, st), c.b);
    assert Moves(c.At(A), c.At(A.Other()), c'.At(A));
    run' := run + [c'];
    Extend(run, c');
  }

  lemma {:induction false} StepB(run: seq<Connection>, st: Stimulus) returns (run': seq<Connection>)
    requires IsConnectionRun(run) && var c := run[|run| - 1]; Offered(c.b, c.a, st)
    ensures IsConnectionRun(run') && |run'| == |run| + 1
    ensures var c, c' := run[|run| - 1], run'[|run|]; c'.a == c.a && c'.b == React(c.b, st)
  {
    hide React;
    var c := run[|run| - 1];
    var c' := Connection(c.a, React(c.b, st));
    assert Moves(c.At(B), c.At(B.Other()), c'.At(B));
    run' := run + [c'];
    Extend(run, c');
  }

  /** One byte is sent and delivered. */
  lemma {:induction false} ByteDelivered() returns (run: seq<Connection>)
    ensures IsConnectionRun(run) && var c := run[|run| - 1];
      && Sender(c.a, Send([0], 0, 1, 1, WIN), START.cc, 0, [FIRST])
      && Receiver(c.b, Receive(1, [0], []), []) && c.b.dupacks == 0
  {
    EstablishedInv(NewReno, STAMPED, WIN);
    run := [Connection(START, START)];
    assert [] + [0 as u8] == [0] && [] + [FIRST] == [FIRST];
    hide OnSegment, OnSend, Inv;
    WriteSent(START, START.snd, START.cc, []);
    run := StepA(run, AppSend([0]));
    var c := run[|run| - 1];
    assert c.a.hist.out[0] == FIRST;
    Delivered(c.b, Receive(0, [], []), [], FIRST);
    run := StepB(run, Arrival(FIRST, None, false));
  }

  /** It is read and acknowledged. */
  lemma {:induction false} ByteAcked() returns (run: seq<Connection>)
    ensures IsConnectionRun(run) && var c := run[|run| - 1];
      && Sender(c.a, Send([0], 1, 1, 1, WIN), SLOW_START, 0, [FIRST])
      && Receiver(c.b, Receive(1, [], []), [ACK]) && !c.b.delayed && c.b.dupacks == 0
  {
    hide OnSegment, OnRead, Inv;
    run := ByteDelivered();
    ReadAcks(run[|run| - 1].b);
    run := StepB(run, AppRead(1));
    var c := run[|run| - 1];
    assert c.b.hist.out[0] == ACK;
    FirstAcked(c.a);
    run := StepA(run, Arrival(ACK, None, false));
  }

  /** Two more bytes are written; the second has to wait. */
  lemma {:induction false} TwoWritten() returns (run: seq<Connection>)
    ensures IsConnectionRun(run) && var c := run[|run| - 1];
      && Sender(c.a, FLIGHT, SLOW_START, 0, [FIRST, SECOND])
      && Receiver(c.b, Receive(1, [], []), [ACK]) && !c.b.delayed && c.b.dupacks == 0
  {
    hide OnSend, Inv;
    run := ByteAcked();
    var c := run[|run| - 1];
    assert [0 as u8] + [0] == [0, 0] && [0 as u8, 0] + [0] == [0, 0, 0] && [FIRST] + [SECOND] == [FIRST, SECOND];
    WriteSent(c.a, Send([0], 1, 1, 1, WIN), SLOW_START, [FIRST]);
    run := StepA(run, AppSend([0]));
    c := run[|run| - 1];
    WriteHeld(c.a, Send([0, 0], 1, 2, 2, WIN), SLOW_START, [FIRST, SECOND]);
    run := StepA(run, AppSend([0]));
  }

  /** The old acknowledgement is delivered three more times. */
  lemma {:induction false} AckedAgain() returns (run: seq<Connection>)
    ensures IsConnectionRun(run) && var c := run[|run| - 1];
      && Sender(c.a, FLIGHT, RECOVERING, 3, [FIRST, SECOND, BOTH])
      && Receiver(c.b, Receive(1, [], []), [ACK]) && !c.b.delayed && c.b.dupacks == 0
  {
    hide OnSegment, Inv;
    run := TwoWritten();
    var c := run[|run| - 1];
    assert c.b.hist.out[0] == ACK;
    AckRepeated(c.a, 0);
    run := StepA(run, Arrival(ACK, None, false));
    AckRepeated(run[|run| - 1].a, 1);
    run := StepA(run, Arrival(ACK, None, false));
    AckThrice(run[|run| - 1].a);
    run := StepA(run, Arrival(ACK, None, false));
  }

  /** Between two honest endpoints the peer can accept bytes past the sender's snd_max, so its
      acknowledgement will be ignored: a network that repeats one old acknowledgement is enough. */
  lemma {:induction false} AcceptedPastMax() returns (run: seq<Connection>)
    ensures IsConnectionRun(run)
    ensures var c := run[|run| - 1]; c.b.rcv.nxt == 3 && c.a.snd.max == 2
  {
    hide OnSegment, Inv;
    run := AckedAgain();
    var c := run[|run| - 1];
    assert c.a.hist.out[2] == BOTH;
    Delivered(c.b, Receive(1, [], []), [ACK], BOTH);
    run := StepB(run, Arrival(BOTH, None, false));
  }
}
