/** Congestion control on values: the shared AIMD core, Tahoe, Reno, NewReno and LSTM-Reno as one
    event function, and what every event sequence keeps. */
module Congestion {
  import opened Serial

  const MSS: int := 1400
  const IW: int := 3                        // IW_CALC(MSS), segments
  const SSTHRESH_MAX: int := 0xFFFF_FFFF

  datatype CaState = Open | Disorder | Cwr | Recovery | Loss

  datatype Algorithm = Tahoe | Reno | NewReno | LstmReno

  /** The algorithms with a recovery point. */
  predicate Modern(alg: Algorithm) { alg.NewReno? || alg.LstmReno? }

  datatype Event = Init | Ack(acked: nat) | DupAck(total: nat) | Timeout(flight: nat)

  /** The send sequence variables as stream positions when the event is raised. */
  datatype Flight = Flight(una: int, nxt: int, max: int) {
    predicate Ok() { 0 <= una <= nxt <= max < TWO31 - 1 }

    function Size(): int { nxt - una }
  }

  /** cwnd, ssthresh, recover (as a position; the initial sequence number is -1) and ca_state. */
  datatype Cc = Cc(cwnd: int, ssthresh: int, recover: int, ca: CaState)

  /** What the algorithm asks the stack to do besides updating its variables. */
  datatype Act = Quiet | Retransmit | Burst

  /** One call of cong_control: the event, the flight, and the predictor's bit. */
  datatype Input = Input(ev: Event, w: Flight, fired: bool)

  function Halve(flight: int): (t: int)
    ensures t >= 2 * MSS
    ensures 2 * t <= flight <= 2 * t + 1 || (t == 2 * MSS && flight < 4 * MSS)
  {
    Max(flight / 2, 2 * MSS)
  }

  function Start(c: Cc): Cc { c.(cwnd := MSS * IW, ssthresh := SSTHRESH_MAX, ca := Open) }

  /** The bytes one ACK adds to cwnd in slow start or in congestion avoidance. */
  function Growth(c: Cc, acked: int): int
    requires c.ssthresh > 0
  {
    if c.cwnd < c.ssthresh then Min(acked, MSS) else Max(Min(acked, c.cwnd) * MSS / c.cwnd, 1)
  }

  function Aimd(c: Cc, acked: int): Cc
    requires c.ssthresh > 0
  {
    c.(cwnd := c.cwnd + Growth(c, acked), ca := if c.ca.Loss? then Open else c.ca)
  }

  function TimeoutCut(c: Cc, flight: int): Cc {
    var cut := Halve(Min(flight, c.cwnd));
    var kept := if (c.ca.Recovery? || c.ca.Loss?) && cut > c.ssthresh then c.ssthresh else cut;
    c.(cwnd := MSS, ssthresh := kept, ca := Loss)
  }

  function TahoeStep(c: Cc, i: Input): (Cc, Act)
    requires c.ssthresh > 0
  {
    match i.ev
    case Init => (Start(c), Quiet)
    case Ack(acked) => (Aimd(c.(ca := Open), acked), Quiet)
    case DupAck(n) =>
      if n == 3 then (c.(ssthresh := Halve(i.w.Size()), cwnd := MSS), Retransmit) else (c, Quiet)
    case Timeout(flight) => (TimeoutCut(c, flight), Quiet)
  }

  function RenoStep(c: Cc, i: Input): (Cc, Act)
    requires c.ssthresh > 0
  {
    match i.ev
    case Init => (Start(c), Quiet)
    case Ack(acked) =>
      if c.ca.Recovery? then (c.(cwnd := c.ssthresh, ca := Open), Quiet) else (Aimd(c, acked), Quiet)
    case DupAck(n) =>
      if n == 3 then
        var t := Halve(i.w.Size());
        (c.(ssthresh := t, cwnd := t + 3 * MSS, ca := Recovery), Retransmit)
      else if n > 3 then (c.(cwnd := c.cwnd + MSS), Burst)
      else (c, Quiet)
    case Timeout(flight) => (TimeoutCut(c, flight), Quiet)
  }

  /** NewReno (section 3.2 of RFC 6582). */
  function NewRenoStep(c: Cc, i: Input): (Cc, Act)
    requires c.ssthresh > 0
  {
    match i.ev
    case Init => (Start(c).(recover := -1), Quiet)
    case Ack(acked) =>
      if c.ca.Recovery? then
        if i.w.una >= c.recover then (c.(cwnd := c.ssthresh, ca := Open), Quiet)
        else (c.(cwnd := (if acked >= c.cwnd then MSS else c.cwnd - acked) + MSS), Retransmit)
      else (Aimd(c, acked), Quiet)
    case DupAck(n) =>
      if n == 3 then
        if i.w.una > c.recover then
          var t := Halve(i.w.Size());
          (Cc(t + 3 * MSS, t, i.w.max, Recovery), Retransmit)
        else (c, Quiet)
      else if n > 3 && c.ca.Recovery? then (c.(cwnd := c.cwnd + MSS), Burst)
      else (c, Quiet)
    case Timeout(flight) => (TimeoutCut(c.(recover := i.w.max), flight), Quiet)
  }

  /** The preemptive back-off of LSTM-Reno: lower ssthresh to half the flight, never raise it. */
  function Preempt(c: Cc, i: Input): Cc {
    if i.fired && Halve(i.w.Size()) < c.ssthresh then c.(ssthresh := Halve(i.w.Size())) else c
  }

  function LstmStep(c: Cc, i: Input): (Cc, Act)
    requires c.ssthresh > 0
  {
    match i.ev
    case Init => (Start(c).(recover := -1), Quiet)
    case Ack(acked) =>
      if c.ca.Recovery? then
        if i.w.una >= c.recover then (c.(cwnd := c.ssthresh, ca := Open), Quiet)
        else (c.(cwnd := (if acked >= c.cwnd then MSS else c.cwnd - acked) + MSS), Retransmit)
      else (Aimd(Preempt(c, i), acked), Quiet)
    case DupAck(n) =>
      if n == 3 then
        if i.w.una > c.recover then
          var t := Halve(i.w.Size());
          (Cc(t + 3 * MSS, t, i.w.max, Recovery), Retransmit)
        else (c, Quiet)
      else if n > 3 && c.ca.Recovery? then (c.(cwnd := c.cwnd + MSS), Burst)
      else (c, Quiet)
    case Timeout(flight) => (TimeoutCut(c.(recover := i.w.max), flight), Quiet)
  }

  /** cong_control before the new cwnd is stored in its 32-bit field. */
  function Raw(alg: Algorithm, c: Cc, i: Input): (Cc, Act)
    requires c.ssthresh > 0
  {
    match alg
    case Tahoe => TahoeStep(c, i)
    case Reno => RenoStep(c, i)
    case NewReno => NewRenoStep(c, i)
    case LstmReno => LstmStep(c, i)
  }

  /** cong_control: at most one addition to cwnd per event, stored modulo 2^32. */
  function Control(alg: Algorithm, c: Cc, i: Input): (Cc, Act)
    requires c.ssthresh > 0
  {
    var (c', act) := Raw(alg, c, i);
    (c'.(cwnd := Wrap(c'.cwnd)), act)
  }

  /** The fields' ranges, kept by every event whatever the windows do. */
  predicate InRange(c: Cc) {
    0 <= c.cwnd < TWO32 && 2 * MSS <= c.ssthresh < TWO32 && -1 <= c.recover < TWO31 - 1
  }

  lemma {:induction false} ControlInRange(alg: Algorithm, c: Cc, i: Input)
    requires InRange(c) && i.w.Ok()
    ensures InRange(Control(alg, c, i).0)
  {
  }

  // ---------- the window floors ----------

  lemma {:induction false} GrowthBound(c: Cc, acked: int)
    requires c.cwnd >= MSS && c.ssthresh > 0 && acked >= 0
    ensures 0 <= Growth(c, acked) <= MSS
    ensures acked >= 1 ==> 1 <= Growth(c, acked) <= acked
  {
    if c.cwnd >= c.ssthresh {
      ShareBound(Min(acked, c.cwnd), c.cwnd);
    }
  }

  /** The share of a segment that `eff` acknowledged bytes of a window earn. */
  lemma {:induction false} ShareBound(eff: int, cwnd: int)
    requires 0 <= eff <= cwnd && cwnd >= MSS
    ensures 0 <= eff * MSS / cwnd <= Min(eff, MSS)
  {
    MulMono(MSS, cwnd, eff);
    MulMono(eff, cwnd, MSS);
    QuotientBound(eff * MSS, cwnd, eff);
    QuotientBound(eff * MSS, cwnd, MSS);
  }

  lemma {:induction false} QuotientBound(x: int, d: int, b: int)
    requires d > 0 && 0 <= x <= b * d
    ensures 0 <= x / d <= b
  {
    var q := x / d;
    assert q * d <= x;
    assert (b + 1) * d == b * d + d;
    if q > b {
      MulMono(b + 1, q, d);
    }
  }

  lemma {:induction false} MulMono(a: int, b: int, d: int)
    requires a <= b && d >= 0
    ensures a * d <= b * d
    ensures d * a <= d * b
  {
    assert b * d == a * d + (b - a) * d;
  }

  /** No event sets cwnd below one segment or overshoots 2^32 by a whole segment. */
  lemma {:induction false} RawBound(alg: Algorithm, c: Cc, i: Input)
    requires InRange(c) && c.cwnd >= MSS && i.w.Ok()
    ensures MSS <= Raw(alg, c, i).0.cwnd < TWO32 + MSS
    ensures Raw(alg, c, i).0.ssthresh >= 2 * MSS
  {
    if i.ev.Ack? {
      GrowthBound(c, i.ev.acked);
      GrowthBound(c.(ca := Open), i.ev.acked);
      GrowthBound(Preempt(c, i), i.ev.acked);
    }
    match alg
    case Tahoe =>
    case Reno =>
    case NewReno =>
    case LstmReno =>
  }

  /** The bytes an event adds to the cwnd it finds; 0 where it replaces cwnd by a fresh value. */
  function Added(alg: Algorithm, c: Cc, i: Input): int
    requires c.ssthresh > 0
  {
    match i.ev
    case Init => 0
    case Ack(acked) =>
      if !c.ca.Recovery? || alg.Tahoe? then Growth(if alg.LstmReno? then Preempt(c, i) else c, acked)
      else if !alg.Reno? && i.w.una < c.recover && acked < c.cwnd then MSS - acked
      else 0
    case DupAck(n) => if n > 3 && (alg.Reno? || (!alg.Tahoe? && c.ca.Recovery?)) then MSS else 0
    case Timeout(_) => 0
  }

  /** An event keeps cwnd at one segment or more exactly when what it adds to the present cwnd stays
      below 2^32; ssthresh stays at two segments or more in any case. */
  lemma {:induction false} FloorIff(alg: Algorithm, c: Cc, i: Input)
    requires InRange(c) && c.cwnd >= MSS && i.w.Ok()
    ensures Control(alg, c, i).0.cwnd >= MSS <==> c.cwnd + Added(alg, c, i) < TWO32
    ensures Control(alg, c, i).0.ssthresh >= 2 * MSS
  {
    RawBound(alg, c, i);
    AddedIsCarry(alg, c, i);
  }

  /** Only an addition can carry. */
  lemma {:induction false} AddedIsCarry(alg: Algorithm, c: Cc, i: Input)
    requires InRange(c) && i.w.Ok()
    ensures Raw(alg, c, i).0.cwnd < TWO32 <==> c.cwnd + Added(alg, c, i) < TWO32
  {
  }

  /** The state after a sequence of calls, starting from the INIT event. */
  function After(alg: Algorithm, c0: Cc, inputs: seq<Input>): Cc
    requires InRange(c0) && forall k :: 0 <= k < |inputs| ==> inputs[k].w.Ok()
    ensures InRange(After(alg, c0, inputs))
  {
    if inputs == [] then
      ControlInRange(alg, c0, Input(Init, Flight(0, 0, 0), false));
      Control(alg, c0, Input(Init, Flight(0, 0, 0), false)).0
    else
      var last := inputs[|inputs| - 1];
      var c := After(alg, c0, inputs[..|inputs| - 1]);
      ControlInRange(alg, c, last);
      Control(alg, c, last).0
  }

  // ---------- congestion avoidance ----------

  function Sum(acks: seq<u32>): nat {
    if acks == [] then 0 else Sum(acks[..|acks| - 1]) + acks[|acks| - 1]
  }

  /** cwnd after a sequence of ACKs handled by cc_aimd. */
  function AvoidRun(c: Cc, acks: seq<u32>): Cc
    requires c.ssthresh > 0
    ensures AvoidRun(c, acks).ssthresh == c.ssthresh
  {
    if acks == [] then c else Aimd(AvoidRun(c, acks[..|acks| - 1]), acks[|acks| - 1])
  }

  /** In congestion avoidance, n ACKs for at most one window of bytes add at most MSS + n bytes. */
  lemma {:induction false} AvoidanceIsLinear(c: Cc, acks: seq<u32>)
    requires c.cwnd >= c.ssthresh > 0 && Sum(acks) <= c.cwnd
    ensures c.cwnd <= AvoidRun(c, acks).cwnd <= c.cwnd + MSS + |acks|
  {
    AvoidanceInvariant(c, acks);
    var x := AvoidRun(c, acks).cwnd - c.cwnd - |acks|;
    MulMono(Sum(acks), c.cwnd, MSS);
    assert (MSS + 1) * c.cwnd > MSS * c.cwnd;
    if x > MSS {
      MulMono(MSS + 1, x, c.cwnd);
    }
  }

  /** The growth beyond one byte per ACK is paid for by acknowledged bytes at the starting window. */
  lemma {:induction false} AvoidanceInvariant(c: Cc, acks: seq<u32>)
    requires c.cwnd >= c.ssthresh > 0
    ensures AvoidRun(c, acks).cwnd >= c.cwnd
    ensures (AvoidRun(c, acks).cwnd - c.cwnd - |acks|) * c.cwnd <= Sum(acks) * MSS
  {
    if acks != [] {
      var init, a := acks[..|acks| - 1], acks[|acks| - 1];
      AvoidanceInvariant(c, init);
      var m := AvoidRun(c, init).cwnd;
      AvoidanceStep(c.cwnd, m, a, |init|, Sum(init));
    }
  }

  lemma {:induction false} AvoidanceStep(c: int, m: int, a: int, n: int, total: int)
    requires 0 < c <= m && a >= 0 && (m - c - n) * c <= total * MSS
    ensures var g := Max(Min(a, m) * MSS / m, 1);
      g >= 1 && (m + g - c - (n + 1)) * c <= (total + a) * MSS
  {
    SharePaid(c, m, a);
    var q := Min(a, m) * MSS / m;
    var x := m - c - n;
    var y := x + Max(q, 1) - 1;
    MulMono(y, x + q, c);
    assert (x + q) * c == x * c + q * c;
  }

  lemma {:induction false} SharePaid(c: int, m: int, a: int)
    requires 0 < c <= m && a >= 0
    ensures Min(a, m) * MSS / m >= 0
    ensures Min(a, m) * MSS / m * c <= a * MSS
  {
    var q := Min(a, m) * MSS / m;
    assert q * m <= Min(a, m) * MSS;
    assert q >= 0 by { QuotientBound(Min(a, m) * MSS, m, MSS); }
    MulMono(c, m, q);
  }

  /** A timeout during recovery or loss never raises ssthresh, and always restarts from one segment. */
  lemma {:induction false} TimeoutNeverRaises(alg: Algorithm, c: Cc, i: Input)
    requires InRange(c) && i.ev.Timeout? && i.w.Ok()
    ensures var c' := Control(alg, c, i).0;
      && c'.cwnd == MSS && c'.ca == Loss
      && (c.ca.Recovery? || c.ca.Loss? ==> c'.ssthresh <= c.ssthresh)
      && c'.ssthresh <= Max(c.cwnd / 2, 2 * MSS)
  {
    match alg
    case Tahoe =>
    case Reno =>
    case NewReno =>
    case LstmReno =>
  }

  // ---------- LSTM-Reno against NewReno ----------

  /** Without a fired prediction the two algorithms are the same function. */
  lemma {:induction false} LstmQuietIsNewReno(c: Cc, i: Input)
    requires c.ssthresh > 0 && !i.fired
    ensures Control(LstmReno, c, i) == Control(NewReno, c, i)
  {
  }

  /** With a predictor that never fires, LSTM-Reno is NewReno on every event sequence. */
  lemma {:induction false} LstmRefinesNewReno(c0: Cc, inputs: seq<Input>)
    requires InRange(c0) && forall k :: 0 <= k < |inputs| ==> inputs[k].w.Ok() && !inputs[k].fired
    ensures After(LstmReno, c0, inputs) == After(NewReno, c0, inputs)
  {
    if inputs != [] {
      LstmRefinesNewReno(c0, inputs[..|inputs| - 1]);
      LstmQuietIsNewReno(After(NewReno, c0, inputs[..|inputs| - 1]), inputs[|inputs| - 1]);
    }
  }

  /** Before the store, LSTM-Reno's next windows are at most NewReno's. */
  lemma {:induction false} LstmRawBelow(c: Cc, i: Input)
    requires InRange(c) && c.cwnd >= MSS && (i.ev.Ack? ==> i.ev.acked >= 1)
    ensures var (l, la) := Raw(LstmReno, c, i); var (n, na) := Raw(NewReno, c, i);
      && l.cwnd <= n.cwnd && 2 * MSS <= l.ssthresh <= n.ssthresh
      && l.recover == n.recover && l.ca == n.ca && la == na
  {
    if i.ev.Ack? && !c.ca.Recovery? {
      var p := Preempt(c, i);
      GrowthBound(p, i.ev.acked);
      GrowthBound(c, i.ev.acked);
      assert p.cwnd >= p.ssthresh && c.cwnd < c.ssthresh ==> Growth(p, i.ev.acked) <= Growth(c, i.ev.acked);
    }
  }

  /** With any predictor, from the same state, everything else LSTM-Reno decides is the same, its
      ssthresh is at most NewReno's, and its stored cwnd is at most NewReno's except exactly when
      NewReno's addition carries out of 32 bits and LSTM-Reno's smaller one does not. */
  lemma {:induction false} LstmNeverMoreAggressive(c: Cc, i: Input)
    requires InRange(c) && c.cwnd >= MSS && i.w.Ok() && (i.ev.Ack? ==> i.ev.acked >= 1)
    ensures var (l, la) := Control(LstmReno, c, i); var (n, na) := Control(NewReno, c, i);
      && 2 * MSS <= l.ssthresh <= n.ssthresh && l.recover == n.recover && l.ca == n.ca && la == na
      && (l.cwnd <= n.cwnd <==> !(c.cwnd + Added(LstmReno, c, i) < TWO32 <= c.cwnd + Added(NewReno, c, i)))
  {
    LstmRawBelow(c, i);
    RawBound(LstmReno, c, i);
    RawBound(NewReno, c, i);
    AddedIsCarry(LstmReno, c, i);
    AddedIsCarry(NewReno, c, i);
    StoredOrder(Raw(LstmReno, c, i).0.cwnd, Raw(NewReno, c, i).0.cwnd,
                c.cwnd + Added(LstmReno, c, i), c.cwnd + Added(NewReno, c, i));
  }

  /** Storing two ordered windows reverses them exactly when only the larger one carries. */
  lemma {:induction false} StoredOrder(l: int, n: int, lSum: int, nSum: int)
    requires MSS <= l <= n < TWO32 + MSS && (l < TWO32 <==> lSum < TWO32) && (n < TWO32 <==> nSum < TWO32)
    ensures Wrap(l) <= Wrap(n) <==> !(lSum < TWO32 <= nSum)
  {
  }

  /** At the top of the range NewReno's slow start carries and LSTM-Reno's avoidance does not. */
  lemma {:induction false} LstmOvertakes()
    ensures var c := Cc(TWO32 - 10, TWO32 - 5, 10, Open);
      var i := Input(Ack(MSS), Flight(20, 30, 40), true);
      Control(LstmReno, c, i).0.cwnd > Control(NewReno, c, i).0.cwnd
  {
    assert Growth(Cc(TWO32 - 10, 2 * MSS, 10, Open), MSS) == 1;
  }
}
