/** How long cwnd keeps its floor of one segment over sequences of congestion events: exactly as long
    as the acknowledgements cannot build it up to 2^32. */
module WindowFloor {
  import opened Serial
  import opened Congestion

  /** Every flight of the sequence is well formed and at most `flight` bytes. */
  predicate Within(inputs: seq<Input>, flight: nat) {
    forall k :: 0 <= k < |inputs| ==> inputs[k].w.Ok() && inputs[k].w.Size() <= flight
  }

  predicate FromPeer(ev: Event) { ev.Ack? || ev.DupAck? }

  /** The acknowledgements, new or duplicate, in a sequence of events. */
  function Acks(inputs: seq<Input>): nat {
    if inputs == [] then 0
    else Acks(inputs[..|inputs| - 1]) + if FromPeer(inputs[|inputs| - 1].ev) then 1 else 0
  }

  /** The largest cwnd that `n` acknowledgements can build up with at most `flight` bytes in flight. */
  function Ceiling(alg: Algorithm, flight: nat, n: nat): int {
    (if alg.Tahoe? then IW * MSS else Halve(flight) + 2 * MSS) + n * MSS
  }

  /** What any such sequence keeps; ssthresh is small wherever recovery may copy it to cwnd. */
  predicate Capped(alg: Algorithm, c: Cc, flight: nat, n: nat) {
    && MSS <= c.cwnd <= Ceiling(alg, flight, n)
    && 2 * MSS <= c.ssthresh
    && (c.ca.Recovery? ==> !alg.Tahoe? && c.ssthresh <= Halve(flight))
  }

  lemma {:induction false} CappedRaw(alg: Algorithm, c: Cc, i: Input, flight: nat, n: nat)
    requires InRange(c) && i.w.Ok() && i.w.Size() <= flight && Capped(alg, c, flight, n)
    requires FromPeer(i.ev) ==> n > 0 && Capped(alg, c, flight, n - 1)
    ensures Capped(alg, Raw(alg, c, i).0, flight, n)
  {
    if i.ev.Ack? {
      GrowthBound(c, i.ev.acked);
      GrowthBound(c.(ca := Open), i.ev.acked);
      GrowthBound(Preempt(c, i), i.ev.acked);
    }
    match alg
    case Tahoe =>
    case Reno =>
    case NewReno =>
    case LstmReno =>
  }

  lemma {:induction false} StoredFits(cwnd: int)
    requires 0 <= cwnd < TWO32
    ensures Wrap(cwnd) == cwnd
  {
  }

  lemma {:induction false} CappedStep(alg: Algorithm, c: Cc, i: Input, flight: nat, n: nat)
    requires InRange(c) && i.w.Ok() && i.w.Size() <= flight && Capped(alg, c, flight, n)
    requires FromPeer(i.ev) ==> n > 0 && Capped(alg, c, flight, n - 1)
    requires Ceiling(alg, flight, n) < TWO32
    ensures Capped(alg, Control(alg, c, i).0, flight, n)
  {
    hide Raw, Ceiling;
    CappedRaw(alg, c, i, flight, n);
    StoredFits(Raw(alg, c, i).0.cwnd);
  }

  /** After INIT, every event sequence under all four algorithms keeps both floors as long as the
      acknowledgements in it are too few to reach 2^32; timeouts are not counted. */
  lemma {:induction false} RunFloors(alg: Algorithm, c0: Cc, inputs: seq<Input>, flight: nat, n: nat)
    requires InRange(c0) && Within(inputs, flight)
    requires Acks(inputs) <= n && Ceiling(alg, flight, n) < TWO32
    ensures Capped(alg, After(alg, c0, inputs), flight, n)
  {
    if inputs != [] {
      var init, last := inputs[..|inputs| - 1], inputs[|inputs| - 1];
      RunFloors(alg, c0, init, flight, n);
      if FromPeer(last.ev) {
        RunFloors(alg, c0, init, flight, n - 1);
      }
      CappedStep(alg, After(alg, c0, init), last, flight, n);
    }
  }

  /** The n-th of the acknowledgements that raise cwnd fastest: slow start for Tahoe, otherwise fast
      retransmit with a full flight and then one duplicate after another. */
  function Push(alg: Algorithm, flight: nat, n: nat): Input {
    var ev := if alg.Tahoe? then Ack(MSS) else DupAck(if n == 1 then 3 else 4);
    Input(ev, Flight(0, flight, flight), false)
  }

  function Pump(alg: Algorithm, flight: nat, n: nat): seq<Input> {
    seq(n, k requires 0 <= k => Push(alg, flight, k + 1))
  }

  lemma {:induction false} PumpIsWithin(alg: Algorithm, flight: nat, n: nat)
    requires flight < TWO31 - 1
    ensures Within(Pump(alg, flight, n), flight) && Acks(Pump(alg, flight, n)) == n
  {
    if n > 0 {
      PumpIsWithin(alg, flight, n - 1);
      assert Pump(alg, flight, n)[..n - 1] == Pump(alg, flight, n - 1);
    }
  }

  predicate Pumped(alg: Algorithm, c: Cc, flight: nat, n: nat) {
    && c.cwnd == (if n == 0 then IW * MSS else Ceiling(alg, flight, n))
    && (alg.Tahoe? ==> c.ssthresh == SSTHRESH_MAX)
    && (!alg.Tahoe? && n > 0 ==> c.ca.Recovery?)
    && (alg.NewReno? || alg.LstmReno? ==> n > 0 || c.recover == -1)
  }

  lemma {:induction false} PushStep(alg: Algorithm, c: Cc, flight: nat, n: nat)
    requires InRange(c) && flight < TWO31 - 1 && 0 < n && Pumped(alg, c, flight, n - 1)
    ensures var c' := Control(alg, c, Push(alg, flight, n)).0;
      && c'.cwnd == Wrap(Ceiling(alg, flight, n))
      && (Ceiling(alg, flight, n) < TWO32 ==> Pumped(alg, c', flight, n))
  {
    PushRaw(alg, c, flight, n);
    hide Raw, Ceiling, Push;
    if Ceiling(alg, flight, n) < TWO32 {
      StoredFits(Ceiling(alg, flight, n));
    }
  }

  lemma {:induction false} PushRaw(alg: Algorithm, c: Cc, flight: nat, n: nat)
    requires InRange(c) && flight < TWO31 - 1 && 0 < n && Pumped(alg, c, flight, n - 1)
    ensures Pumped(alg, Raw(alg, c, Push(alg, flight, n)).0, flight, n) && Ceiling(alg, flight, n) >= 0
  {
    match alg
    case Tahoe =>
    case Reno =>
    case NewReno =>
    case LstmReno =>
  }

  /** The state after the first `n` of them. */
  function AfterPump(alg: Algorithm, c0: Cc, flight: nat, n: nat): (c: Cc)
    requires InRange(c0) && flight < TWO31 - 1
    ensures InRange(c)
  {
    After(alg, c0, Pump(alg, flight, n))
  }

  lemma {:induction false} PumpLast(alg: Algorithm, c0: Cc, flight: nat, n: nat)
    requires InRange(c0) && flight < TWO31 - 1 && 0 < n
    ensures AfterPump(alg, c0, flight, n) == Control(alg, AfterPump(alg, c0, flight, n - 1), Push(alg, flight, n)).0
  {
    assert Pump(alg, flight, n)[..n - 1] == Pump(alg, flight, n - 1);
  }

  /** The ceiling is attained. */
  lemma {:induction false} PumpReaches(alg: Algorithm, c0: Cc, flight: nat, n: nat)
    requires InRange(c0) && flight < TWO31 - 1 && Ceiling(alg, flight, n) < TWO32
    ensures Pumped(alg, AfterPump(alg, c0, flight, n), flight, n)
  {
    if n > 0 {
      hide AfterPump, Control;
      PumpReaches(alg, c0, flight, n - 1);
      PumpLast(alg, c0, flight, n);
      PushStep(alg, AfterPump(alg, c0, flight, n - 1), flight, n);
    }
  }

  /** Once the ceiling passes 2^32 some such sequence collapses cwnd below one segment. */
  lemma {:induction false} PumpCollapses(alg: Algorithm, c0: Cc, flight: nat, n: nat) returns (k: nat)
    requires InRange(c0) && flight < TWO31 - 1 && Ceiling(alg, flight, n) >= TWO32
    ensures k <= n && AfterPump(alg, c0, flight, k).cwnd < MSS
  {
    hide AfterPump, Control;
    if Ceiling(alg, flight, n - 1) >= TWO32 {
      k := PumpCollapses(alg, c0, flight, n - 1);
    } else {
      k := n;
      PumpReaches(alg, c0, flight, n - 1);
      PumpLast(alg, c0, flight, n);
      PushStep(alg, AfterPump(alg, c0, flight, n - 1), flight, n);
    }
  }

  /** No sequence with at most `n` acknowledgements and `flight` bytes in flight takes cwnd below one
      segment. */
  ghost predicate FloorSafe(alg: Algorithm, c0: Cc, flight: nat, n: nat)
    requires InRange(c0)
  {
    forall inputs: seq<Input> :: Within(inputs, flight) && Acks(inputs) <= n ==>
      After(alg, c0, inputs).cwnd >= MSS
  }

  /** The floor of one segment holds over all such sequences exactly when the ceiling fits 32 bits. */
  lemma {:induction false} FloorSafeIff(alg: Algorithm, c0: Cc, flight: nat, n: nat)
    requires InRange(c0) && flight < TWO31 - 1
    ensures FloorSafe(alg, c0, flight, n) <==> Ceiling(alg, flight, n) < TWO32
  {
    if Ceiling(alg, flight, n) < TWO32 {
      forall inputs: seq<Input> | Within(inputs, flight) && Acks(inputs) <= n
        ensures After(alg, c0, inputs).cwnd >= MSS
      {
        RunFloors(alg, c0, inputs, flight, n);
      }
    } else {
      var k := PumpCollapses(alg, c0, flight, n);
      PumpIsWithin(alg, flight, k);
      assert After(alg, c0, Pump(alg, flight, k)).cwnd < MSS;
    }
  }
}
