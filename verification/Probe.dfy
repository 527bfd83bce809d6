/** The smallest interesting connection: the peer advertises a window of one byte. Its runs are the
    concrete inputs on which expected statements fail. */
module Probe {
  import opened Serial
  import opened Ring
  import opened Reassembly
  import opened Congestion
  import opened RttEstimator
  import opened WindowScale
  import opened Endpoint
  import opened EndpointInvariant
  import opened Run

  /** No scaling, no timestamps. */
  const PLAIN := Options(false, 0, false)

  /** The window field of an empty receive buffer without scaling. */
  const WIN: u16 := ToField(false, RCV_SCALE, BUF_SIZE)

  /** A repeated acknowledgement of nothing. */
  const DUP := Arrival(Segment(0, 0, 1, []), None, false)

  /** After the first byte of `data` has been sent. */
  function Probing(alg: Algorithm, data: Bytes): Endpoint
    requires data != []
  {
    var e := Established(alg, PLAIN, 1);
    e.(snd := Send(data, 0, 1, 1, 1), tm := e.tm.(rexmt := RTO_DEFAULT, rtt := 1, rtseq := 0),
       hist := e.hist.(out := [Segment(0, 0, WIN, data[..1])]))
  }

  lemma {:induction false} ProbeSent(alg: Algorithm, data: Bytes)
    requires 0 < |data| <= MSS
    ensures var e := Established(alg, PLAIN, 1);
      Runs(e, [AppSend(data)]) && Final(e, [AppSend(data)]) == Probing(alg, data)
  {
    hide OnSend;
    var e := Established(alg, PLAIN, 1);
    ProbeStep(alg, data);
    RunsAppend(e, [], AppSend(data));
    assert [] + [AppSend(data)] == [AppSend(data)];
  }

  lemma {:induction false} ProbeStep(alg: Algorithm, data: Bytes)
    requires 0 < |data| <= MSS
    ensures OnSend(Established(alg, PLAIN, 1), data) == Probing(alg, data)
  {
    var e := Established(alg, PLAIN, 1);
    var e1 := e.(snd := e.snd.(stream := [] + data));
    assert [] + data == data;
    assert Chunk(e1) == 1;
    var sent := Emit(e1, 0, 1);
    assert sent.hist.out == [Segment(0, 0, WIN, data[..1])];
    var e2 := Advance(sent, 1);
    assert e2 == Probing(alg, data);
    assert Chunk(e2) == 0;
    assert OutputLoop(e2, false) == e2;
    assert OutputLoop(e1, false) == OutputLoop(e2, false);
  }

  /** The data is sent and `n` duplicate acknowledgements follow. */
  function Dups(data: Bytes, n: nat): seq<Stimulus> { [AppSend(data)] + seq(n, _ => DUP) }

  lemma {:induction false} DupsNext(alg: Algorithm, data: Bytes, n: nat)
    requires var e := Established(alg, PLAIN, 1); Runs(e, Dups(data, n))
    ensures var e := Established(alg, PLAIN, 1);
      && Runs(e, Dups(data, n + 1))
      && Final(e, Dups(data, n + 1)) == OnSegment(Final(e, Dups(data, n)), DUP.s, None, false)
  {
    hide OnSegment;
    RunsAppend(Established(alg, PLAIN, 1), Dups(data, n), DUP);
    assert Dups(data, n) + [DUP] == Dups(data, n + 1);
  }

  /** With the one-byte window full, output has nothing to do. */
  lemma {:induction false} WindowFull(e: Endpoint)
    requires Ready(e) && !e.acknow && e.snd.una == 0 && e.snd.nxt == 1 && e.snd.wnd == 1
    ensures Output(e) == e
  {
    assert Chunk(e) == 0;
    assert e.(acknow := false) == e;
  }

  /** No algorithm reacts to the first two duplicates. */
  lemma {:induction false} EarlyDupIgnored(e: Endpoint, n: nat)
    requires Ready(e) && 0 < n < 3 && 0 <= e.cc.cwnd < TWO32
    ensures Congest(e, DupAck(n), false) == e
  {
    var (c, act) := NextCc(e, DupAck(n), false);
    assert c == e.cc && act == Quiet;
    hide NextCc;
  }

  /** They are only counted. */
  lemma {:induction false} EarlyDup(alg: Algorithm, data: Bytes, n: nat)
    requires data != [] && n < 2
    ensures var e := Probing(alg, data).(dupacks := n);
      OnSegment(e, DUP.s, None, false) == e.(dupacks := n + 1)
  {
    hide Congest, Output;
    var e := Probing(alg, data).(dupacks := n + 1);
    EarlyDupIgnored(e, n + 1);
    WindowFull(e);
  }

  lemma {:induction false} TwoDups(alg: Algorithm, data: Bytes)
    requires 0 < |data| <= MSS
    ensures var e := Established(alg, PLAIN, 1);
      Runs(e, Dups(data, 2)) && Final(e, Dups(data, 2)) == Probing(alg, data).(dupacks := 2)
  {
    hide OnSegment;
    ProbeSent(alg, data);
    assert Dups(data, 0) == [AppSend(data)];
    DupsNext(alg, data, 0);
    EarlyDup(alg, data, 0);
    DupsNext(alg, data, 1);
    EarlyDup(alg, data, 1);
  }

  /** After the third duplicate: `data`, only one byte of which fits the window, is sent as a whole. */
  function Resending(alg: Algorithm, data: Bytes): Endpoint
    requires data != []
  {
    var e := Probing(alg, data).(dupacks := 3);
    e.(cc := NextCc(e, DupAck(3), false).0, tm := e.tm.(rtt := if Modern(alg) then 0 else 1),
       hist := e.hist.(out := [Segment(0, 0, WIN, data[..1]), Segment(0, 0, WIN, data)],
                       rexmits := [Resent(0, |data|, 1)]))
  }

  /** The retransmission itself, whatever congestion control has decided. */
  lemma {:induction false} HeadResent(alg: Algorithm, data: Bytes, c: Cc)
    requires 0 < |data| <= MSS && c.ssthresh > 0
    ensures var e := Probing(alg, data).(dupacks := 3, cc := c);
      RetransmitHead(e) ==
        e.(hist := e.hist.(out := [Segment(0, 0, WIN, data[..1]), Segment(0, 0, WIN, data)],
                           rexmits := [Resent(0, |data|, 1)]))
  {
    assert data[0..|data|] == data;
    assert [Segment(0, 0, WIN, data[..1])] + [Segment(0, 0, WIN, data)]
        == [Segment(0, 0, WIN, data[..1]), Segment(0, 0, WIN, data)];
    assert [] + [Resent(0, |data|, 1)] == [Resent(0, |data|, 1)];
  }

  /** Every algorithm reacts to the third duplicate with a retransmission. */
  lemma {:induction false} ThirdDupActs(alg: Algorithm, data: Bytes)
    requires data != []
    ensures var (c, act) := NextCc(Probing(alg, data).(dupacks := 3), DupAck(3), false);
      && act == Retransmit && c.ssthresh == 2 * MSS
      && (Modern(alg) ==> c == Cc(5 * MSS, 2 * MSS, 1, Recovery))
  {
  }

  lemma {:induction false} ResendHead(alg: Algorithm, data: Bytes)
    requires 0 < |data| <= MSS
    ensures Congest(Probing(alg, data).(dupacks := 3), DupAck(3), false) == Resending(alg, data)
  {
    hide NextCc, RetransmitHead;
    var e := Probing(alg, data).(dupacks := 3);
    ThirdDupActs(alg, data);
    HeadResent(alg, data, NextCc(e, DupAck(3), false).0);
  }

  lemma {:induction false} ThirdDup(alg: Algorithm, data: Bytes)
    requires 0 < |data| <= MSS
    ensures OnSegment(Probing(alg, data).(dupacks := 2), DUP.s, None, false) == Resending(alg, data)
  {
    hide Congest, Output;
    ResendHead(alg, data);
    WindowFull(Resending(alg, data));
  }

  lemma {:induction false} ThreeDups(alg: Algorithm, data: Bytes)
    requires 0 < |data| <= MSS
    ensures var e, sts := Established(alg, PLAIN, 1), Dups(data, 3);
      Runs(e, sts) && Final(e, sts) == Resending(alg, data)
  {
    hide OnSegment;
    TwoDups(alg, data);
    DupsNext(alg, data, 2);
    ThirdDup(alg, data);
  }
}
