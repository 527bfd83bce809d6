/** How the windows respond: losses and predictions halve, recovery ends at the halved window, growth is
    exact. Stated in terms of the flight and the acknowledged bytes alone. */
module LossResponse {
  import opened Serial
  import opened Congestion

  /** `t` is half of `f`, rounded down, but not less than two segments. */
  predicate Halved(t: int, f: int) {
    (2 * t <= f <= 2 * t + 1 && t >= 2 * MSS) || (t == 2 * MSS && f < 4 * MSS)
  }

  /** The third duplicate, where the algorithm lets it count. */
  predicate Enters(alg: Algorithm, c: Cc, i: Input) {
    i.ev == DupAck(3) && (Modern(alg) ==> i.w.una > c.recover)
  }

  /** INIT: three segments, the highest ssthresh, and a recovery point before the first byte. */
  lemma {:induction false} InitWindows(alg: Algorithm, c: Cc, i: Input)
    requires InRange(c) && i.ev.Init?
    ensures Control(alg, c, i) == (Cc(3 * 1400, 0xFFFF_FFFF, if Modern(alg) then -1 else c.recover, Open), Quiet)
  {
  }

  // ---------- losses ----------

  /** Fast retransmit halves the flight into ssthresh; Tahoe restarts from one segment, the others go on
      with three segments more than ssthresh and remember where the flight ended. */
  lemma {:induction false} LossHalves(alg: Algorithm, c: Cc, i: Input)
    requires InRange(c) && i.w.Ok() && Enters(alg, c, i)
    ensures var (c', act) := Control(alg, c, i);
      && Halved(c'.ssthresh, i.w.nxt - i.w.una) && act == Retransmit
      && c'.cwnd == (if alg.Tahoe? then MSS else c'.ssthresh + 3 * MSS)
      && (!alg.Tahoe? ==> c'.ca == Recovery)
      && c'.recover == if Modern(alg) then i.w.max else c.recover
  {
  }

  /** A duplicate that does not count changes nothing. */
  lemma {:induction false} EarlyDuplicate(alg: Algorithm, c: Cc, i: Input)
    requires InRange(c) && i.ev.DupAck? && i.ev.total <= 3 && !Enters(alg, c, i)
    ensures Control(alg, c, i) == (c, Quiet)
  {
  }

  /** A timeout outside recovery and loss halves what was really in flight; during them it never raises
      ssthresh. */
  lemma {:induction false} TimeoutHalves(alg: Algorithm, c: Cc, i: Input)
    requires InRange(c) && i.w.Ok() && i.ev.Timeout?
    ensures var (c', act) := Control(alg, c, i); var f := Min(i.ev.flight, c.cwnd);
      && c'.cwnd == MSS && c'.ca == Loss && act == Quiet
      && (Halved(c'.ssthresh, f)
          || ((c.ca.Recovery? || c.ca.Loss?) && c'.ssthresh == c.ssthresh && 2 * c.ssthresh <= Max(f, 4 * MSS)))
      && c'.recover == if Modern(alg) then i.w.max else c.recover
  {
  }

  /** A fired prediction halves the flight into ssthresh if that lowers it, and only then. */
  lemma {:induction false} PredictionHalves(c: Cc, i: Input)
    requires InRange(c) && i.w.Ok() && i.ev.Ack? && !c.ca.Recovery?
    ensures var t, f := Control(LstmReno, c, i).0.ssthresh, i.w.nxt - i.w.una;
      && (!i.fired ==> t == c.ssthresh)
      && (i.fired ==> t <= c.ssthresh && if t < c.ssthresh then Halved(t, f) else 2 * t <= Max(f, 4 * MSS))
  {
  }

  // ---------- recovery ----------

  /** A duplicate past the third adds one segment and asks for output: under Reno always, under NewReno and
      LSTM-Reno in recovery. Otherwise it changes nothing. */
  lemma {:induction false} DuplicateInflates(alg: Algorithm, c: Cc, i: Input)
    requires InRange(c) && i.ev.DupAck? && i.ev.total > 3
    ensures Control(alg, c, i) ==
      if alg.Reno? || (Modern(alg) && c.ca.Recovery?) then (c.(cwnd := Wrap(c.cwnd + MSS)), Burst) else (c, Quiet)
  {
  }

  /** An acknowledgement short of the recovery point takes its bytes out of the window, adds one segment
      for the retransmission it asks for, and stays in recovery. */
  lemma {:induction false} PartialAckDeflates(alg: Algorithm, c: Cc, i: Input)
    requires InRange(c) && c.ca.Recovery? && Modern(alg) && i.ev.Ack? && i.w.una < c.recover
    ensures Control(alg, c, i) ==
      (c.(cwnd := if i.ev.acked < c.cwnd then Wrap(c.cwnd - i.ev.acked + MSS) else 2 * MSS), Retransmit)
  {
  }

  /** The congestion state after a sequence of events. */
  function Steps(alg: Algorithm, c: Cc, inputs: seq<Input>): (c': Cc)
    requires InRange(c) && forall k :: 0 <= k < |inputs| ==> inputs[k].w.Ok()
    ensures InRange(c')
  {
    if inputs == [] then c
    else
      var n := |inputs| - 1;
      ControlInRange(alg, Steps(alg, c, inputs[..n]), inputs[n]);
      Control(alg, Steps(alg, c, inputs[..n]), inputs[n]).0
  }

  /** Events that keep a recovery going: acknowledgements short of its end, and duplicates that do not
      enter again. */
  predicate Within(alg: Algorithm, recover: int, i: Input) {
    match i.ev
    case Ack(_) => Modern(alg) && i.w.una < recover
    case DupAck(n) => n != 3
    case _ => false
  }

  /** Where a recovery entered on `enter` ends. */
  function EndPoint(alg: Algorithm, c: Cc, enter: Input): int {
    if Modern(alg) then enter.w.max else c.recover
  }

  lemma {:induction false} EpisodeKeeps(alg: Algorithm, c: Cc, inputs: seq<Input>)
    requires InRange(c) && c.ca.Recovery? && !alg.Tahoe?
    requires forall k :: 0 <= k < |inputs| ==> inputs[k].w.Ok() && Within(alg, c.recover, inputs[k])
    ensures var c' := Steps(alg, c, inputs); c'.ca.Recovery? && c'.ssthresh == c.ssthresh && c'.recover == c.recover
  {
    if inputs != [] {
      EpisodeKeeps(alg, c, inputs[..|inputs| - 1]);
    }
  }

  /** Whatever happens in between, recovery ends with a window of half the flight that was outstanding
      when it began. */
  lemma {:induction false} RecoveryHalves(alg: Algorithm, c: Cc, enter: Input, inputs: seq<Input>, leave: Input)
    requires InRange(c) && !alg.Tahoe? && enter.w.Ok() && Enters(alg, c, enter)
    requires forall k :: 0 <= k < |inputs| ==> inputs[k].w.Ok() && Within(alg, EndPoint(alg, c, enter), inputs[k])
    requires leave.ev.Ack? && leave.w.Ok() && (Modern(alg) ==> leave.w.una >= enter.w.max)
    ensures var c' := Steps(alg, c, [enter] + inputs + [leave]);
      c'.ca == Open && c'.cwnd == c'.ssthresh && Halved(c'.cwnd, enter.w.nxt - enter.w.una)
  {
    var c1 := Control(alg, c, enter).0;
    ControlInRange(alg, c, enter);
    LossHalves(alg, c, enter);
    EpisodeKeeps(alg, c1, inputs);
    var c2 := Steps(alg, c1, inputs);
    StepsFrom(alg, c, enter, inputs);
    var all := [enter] + inputs + [leave];
    assert all[..|all| - 1] == [enter] + inputs;
    hide Steps;
    LeaveExact(alg, c2, leave);
    assert Steps(alg, c, all) == Control(alg, c2, leave).0 by { StepsLast(alg, c, [enter] + inputs, leave); }
  }

  /** Leaving recovery sets cwnd to ssthresh. */
  lemma {:induction false} LeaveExact(alg: Algorithm, c: Cc, i: Input)
    requires InRange(c) && c.ca.Recovery? && !alg.Tahoe? && i.ev.Ack? && (Modern(alg) ==> i.w.una >= c.recover)
    ensures Control(alg, c, i) == (c.(cwnd := c.ssthresh, ca := Open), Quiet)
  {
  }

  lemma {:induction false} StepsLast(alg: Algorithm, c: Cc, inputs: seq<Input>, i: Input)
    requires InRange(c) && i.w.Ok() && forall k :: 0 <= k < |inputs| ==> inputs[k].w.Ok()
    ensures Steps(alg, c, inputs + [i]) == Control(alg, Steps(alg, c, inputs), i).0
  {
    assert (inputs + [i])[..|inputs|] == inputs;
  }

  lemma {:induction false} StepsFrom(alg: Algorithm, c: Cc, first: Input, inputs: seq<Input>)
    requires InRange(c) && first.w.Ok() && InRange(Control(alg, c, first).0)
    requires forall k :: 0 <= k < |inputs| ==> inputs[k].w.Ok()
    ensures Steps(alg, c, [first] + inputs) == Steps(alg, Control(alg, c, first).0, inputs)
  {
    if inputs == [] {
      StepsLast(alg, c, [], first);
      assert [] + [first] == [first] + inputs;
    } else {
      var init, last := inputs[..|inputs| - 1], inputs[|inputs| - 1];
      StepsFrom(alg, c, first, init);
      assert [first] + inputs == ([first] + init) + [last];
      StepsLast(alg, c, [first] + init, last);
    }
  }

  // ---------- growth ----------

  /** An ACK outside recovery changes cwnd by its growth, modulo 2^32, and leaves ssthresh to the
      predictor. */
  lemma {:induction false} AckGrows(alg: Algorithm, c: Cc, i: Input)
    requires InRange(c) && i.ev.Ack? && (alg.Tahoe? || !c.ca.Recovery?)
    ensures var (c', act) := Control(alg, c, i);
      && c'.cwnd == Wrap(c.cwnd + Growth(c.(ssthresh := c'.ssthresh), i.ev.acked))
      && c'.recover == c.recover && act == Quiet
      && c'.ca == if alg.Tahoe? || c.ca.Loss? then Open else c.ca
  {
  }

  /** Slow start adds the acknowledged bytes, one segment at most. Congestion avoidance adds the largest
      whole number of bytes not above MSS * acked / cwnd, at least one, and counts at most one window. */
  lemma {:induction false} GrowthExact(c: Cc, acked: nat)
    requires c.cwnd >= MSS && c.ssthresh > 0
    ensures var g := Growth(c, acked); var eff := Min(acked, c.cwnd);
      && (c.cwnd < c.ssthresh ==> g == Min(acked, MSS))
      && (c.cwnd >= c.ssthresh ==> g >= 1 && eff * MSS < (g + 1) * c.cwnd && (g > 1 ==> g * c.cwnd <= eff * MSS))
      && (c.cwnd >= c.ssthresh && acked >= c.cwnd ==> g == MSS)
  {
    if c.cwnd >= c.ssthresh {
      DivExact(Min(acked, c.cwnd) * MSS, c.cwnd);
      if acked >= c.cwnd {
        FullWindow(c.cwnd);
      }
    }
  }

  lemma {:induction false} DivExact(x: int, d: int)
    requires x >= 0 && d > 0
    ensures x / d >= 0 && (x / d) * d <= x < (x / d + 1) * d
  {
    var q := x / d;
    assert x == q * d + x % d;
    assert (q + 1) * d == q * d + d;
    if q < 0 {
      MulMono(q, -1, d);
    }
  }

  lemma {:induction false} FullWindow(cwnd: int)
    requires cwnd > 0
    ensures cwnd * MSS / cwnd == MSS
  {
    DivExact(cwnd * MSS, cwnd);
    var q := cwnd * MSS / cwnd;
    assert (MSS + 1) * cwnd == MSS * cwnd + cwnd;
    if q < MSS {
      MulMono(q + 1, MSS, cwnd);
    } else if q > MSS {
      MulMono(MSS + 1, q, cwnd);
    }
  }

  /** The partner of the linear upper bound: n ACKs for at most one window add at least the segment they
      earn at the final window, less one byte each. */
  lemma {:induction false} AvoidanceGrows(c: Cc, acks: seq<u32>, final: int)
    requires c.cwnd >= c.ssthresh > 0 && Sum(acks) <= c.cwnd && AvoidRun(c, acks).cwnd <= final
    ensures AvoidRun(c, acks).cwnd >= c.cwnd
    ensures (AvoidRun(c, acks).cwnd - c.cwnd + |acks|) * final >= Sum(acks) * MSS
  {
    AvoidanceInvariant(c, acks);
    if acks != [] {
      var init, a := acks[..|acks| - 1], acks[|acks| - 1];
      AvoidanceInvariant(c, init);
      var m := AvoidRun(c, init).cwnd;
      var g := AvoidRun(c, acks).cwnd - m;
      ShareEarned(m, a, final);
      AvoidanceGrows(c, init, final);
      var x := m - c.cwnd + |init|;
      assert (x + (g + 1)) * final == x * final + (g + 1) * final;
    }
  }

  lemma {:induction false} ShareEarned(m: int, a: int, final: int)
    requires 0 <= a <= m && 0 < m <= final
    ensures var g := Max(Min(a, m) * MSS / m, 1); g >= 1 && (g + 1) * final >= a * MSS
  {
    DivExact(a * MSS, m);
    var q := a * MSS / m;
    MulMono(m, final, q + 1);
    MulMono(q + 1, Max(q, 1) + 1, final);
  }
}
