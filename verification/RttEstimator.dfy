/** The fixed-point round-trip estimator of section 2 of RFC 6298 and the retransmission backoff. */
module RttEstimator {
  import opened Serial

  const TICK_US: int := 10_000      // TCP_TICK_MS * 1000
  const RTO_MIN: int := 20          // TCPTV_MIN, ticks
  const RTO_MAX: int := 6400        // TCPTV_REXMTMAX, ticks
  const RTO_DEFAULT: int := 100     // TCPTV_SRTTDFLT, ticks
  const MAX_SHIFT: int := 12        // TCP_MAXRXTSHIFT

  /** t_srtt (scaled by 8), t_rttvar (scaled by 4) and t_rxtcur. */
  datatype Estimate = Estimate(srtt: int, rttvar: int, rto: int)

  const INITIAL := Estimate(0, 0, RTO_DEFAULT)

  /** A microsecond sample in whole ticks, at least one. */
  function Ticks(us: int): (t: int)
    ensures t >= 1
  {
    Max(us / TICK_US, 1)
  }

  function Abs(x: int): int { if x < 0 then -x else x }

  function Clamp(rto: int): int { if rto < RTO_MIN then RTO_MIN else Min(rto, RTO_MAX) }

  /** utcp_xmit_timer in integer arithmetic. */
  function Sample(e: Estimate, us: int): Estimate {
    var r := Ticks(us);
    var delta := r - e.srtt / 8;
    var srtt := if e.srtt == 0 then 8 * r else e.srtt + delta;
    var rttvar := if e.srtt == 0 then 2 * r else e.rttvar + Abs(delta) - e.rttvar / 4;
    Estimate(srtt, rttvar, Clamp(srtt / 8 + rttvar))
  }

  /** The estimate after a whole sequence of samples. */
  function After(us: seq<u32>): Estimate {
    if us == [] then INITIAL else Sample(After(us[..|us| - 1]), us[|us| - 1])
  }

  /** `lo` and `hi` bound every tick sample of the sequence. */
  ghost predicate Within(us: seq<u32>, lo: int, hi: int) {
    forall i :: 0 <= i < |us| ==> lo <= Ticks(us[i]) <= hi
  }

  /** The estimator state that some samples between `lo` and `hi` ticks have produced. */
  predicate Bounded(e: Estimate, lo: int, hi: int) {
    && 8 * lo <= e.srtt <= 8 * hi
    && 0 <= e.rttvar < 4 * hi
    && RTO_MIN <= e.rto <= RTO_MAX
  }

  /** One more sample keeps the bounds: floor division never lets srtt drift below 8 * lo. */
  lemma {:induction false} SampleBounded(e: Estimate, us: u32, lo: int, hi: int)
    requires 1 <= lo <= Ticks(us) <= hi
    requires e.srtt == 0 || Bounded(e, lo, hi)
    ensures Bounded(Sample(e, us), lo, hi)
  {
    if e.srtt != 0 {
      var r := Ticks(us);
      assert lo <= e.srtt / 8 <= hi;
      assert 7 * lo <= e.srtt - e.srtt / 8 <= 7 * hi;
      assert Abs(r - e.srtt / 8) <= hi - 1;
      assert 0 <= e.rttvar - e.rttvar / 4 <= 3 * hi;
    }
  }

  /** For every non-empty sample sequence: srtt stays between 8 * min and 8 * max of the samples,
      rttvar below 4 * max, and the timeout within 20..6400 ticks. */
  lemma {:induction false} EstimateBounded(us: seq<u32>, lo: int, hi: int)
    requires us != [] && 1 <= lo && Within(us, lo, hi)
    ensures Bounded(After(us), lo, hi)
  {
    var init, last := us[..|us| - 1], us[|us| - 1];
    if init != [] {
      EstimateBounded(init, lo, hi);
    }
    SampleBounded(After(init), last, lo, hi);
  }

  /** The first-sample mark 0 never comes back, so RFC 6298 initialisation happens exactly once. */
  lemma {:induction false} NeverReinitialised(us: seq<u32>)
    ensures After(us).srtt == 0 <==> us == []
    ensures RTO_MIN <= After(us).rto <= RTO_MAX
  {
    if us != [] {
      EstimateBounded(us, 1, 429496);
    }
  }

  // ---------- what the estimate means ----------

  /** A sample is counted in whole ticks, at least one. */
  lemma {:induction false} TicksExact(us: u32)
    ensures var t := Ticks(us); if us < TICK_US then t == 1 else t * TICK_US <= us < (t + 1) * TICK_US
  {
  }

  /** Rule 2.2 of RFC 6298: the first sample R gives SRTT = R, RTTVAR = R/2 and a timeout of 3 R. */
  lemma {:induction false} FirstSample(us: u32)
    ensures var e, r := After([us]), Ticks(us);
      && e.srtt == 8 * r && e.rttvar == 2 * r
      && e.rto == if 3 * r < RTO_MIN then RTO_MIN else if 3 * r > RTO_MAX then RTO_MAX else 3 * r
  {
    assert [us][..0] == [];
  }

  /** Rule 2.3: SRTT moves by one eighth and RTTVAR by one quarter towards the sample, each rounded by
      less than one unit of its scaled field. */
  lemma {:induction false} SampleWeights(e: Estimate, us: u32)
    requires e.srtt > 0 && e.rttvar >= 0
    ensures var e', r := Sample(e, us), Ticks(us);
      && 0 <= 8 * e'.srtt - (7 * e.srtt + 8 * r) < 8
      && 0 <= 4 * e'.rttvar - (3 * e.rttvar + 4 * Abs(r - e.srtt / 8)) < 4
  {
  }

  /** The timeout is SRTT + 4 RTTVAR, kept within 20..6400 ticks. */
  lemma {:induction false} RtoExact(e: Estimate, us: u32)
    ensures var e' := Sample(e, us); var x := e'.srtt / 8 + e'.rttvar;
      e'.rto == if x < RTO_MIN then RTO_MIN else if x > RTO_MAX then RTO_MAX else x
  {
  }

  /** The timeout is never below the sample just taken, up to the cap. */
  lemma {:induction false} RtoCovers(e: Estimate, us: u32)
    requires e.srtt >= 0 && e.rttvar >= 0
    ensures Sample(e, us).rto >= Min(Ticks(us), RTO_MAX)
  {
    var e', r, f := Sample(e, us), Ticks(us), e.srtt / 8;
    if e.srtt != 0 {
      assert e'.rttvar >= Abs(r - f);
      assert e'.srtt >= 7 * f + r;
      assert e'.srtt / 8 >= Min(f, r);
    }
  }

  /** A constant round trip of R ticks: SRTT stays at R, RTTVAR never rises and is gone, up to its
      rounding, after 2 R samples; the timeout is then R plus at most three ticks. */
  lemma {:induction false} ConstantSamples(us: u32, n: nat)
    requires n > 0
    ensures var e, r := After(Repeated(us, n)), Ticks(us);
      && e.srtt == 8 * r && 0 <= e.rttvar <= Max(3, 2 * r - (n - 1))
      && (n > 2 * r ==> e.rto <= Max(RTO_MIN, Min(r + 3, RTO_MAX)))
  {
    hide Sample, Ticks, After;
    if n == 1 {
      assert Repeated(us, 1) == [us];
      FirstSample(us);
    } else {
      ConstantSamples(us, n - 1);
      ConstantStep(After(Repeated(us, n - 1)), us);
      RepeatedLast(us, n);
    }
  }

  /** The same sample `n` times. */
  function Repeated(us: u32, n: nat): seq<u32> { seq(n, _ => us) }

  lemma {:induction false} RepeatedLast(us: u32, n: nat)
    requires n > 1
    ensures After(Repeated(us, n)) == Sample(After(Repeated(us, n - 1)), us)
  {
    var all := Repeated(us, n);
    assert all[..n - 1] == Repeated(us, n - 1) && all[n - 1] == us;
  }

  lemma {:induction false} ConstantStep(e: Estimate, us: u32)
    requires e.srtt == 8 * Ticks(us) && e.rttvar >= 0
    ensures var e', r := Sample(e, us), Ticks(us);
      && e'.srtt == 8 * r && 0 <= e'.rttvar <= Max(3, e.rttvar - 1)
      && e'.rto <= Max(RTO_MIN, Min(r + e'.rttvar, RTO_MAX))
  {
  }

  /** The largest tick count a 32-bit microsecond sample can give. */
  const MAX_TICKS: int := 429_496

  /** Every estimate the stack can hold: the initial one or one made of samples. */
  predicate Sound(e: Estimate) {
    e == INITIAL || Bounded(e, 1, MAX_TICKS)
  }

  lemma {:induction false} SampleSound(e: Estimate, us: u32)
    requires Sound(e)
    ensures Sound(Sample(e, us)) && Sample(e, us).srtt != 0
  {
    SampleBounded(e, us, 1, MAX_TICKS);
  }

  class Estimator {
    var srtt: u32
    var rttvar: u32
    var rxtcur: u32

    ghost function View(): Estimate
      reads this
    {
      Estimate(srtt, rttvar, rxtcur)
    }

    constructor ()
      ensures View() == INITIAL
    {
      srtt, rttvar, rxtcur := 0, 0, RTO_DEFAULT;
    }

    /** utcp_xmit_timer: the unsigned 32-bit updates never wrap, so they equal the integer ones. */
    method XmitTimer(us: u32)
      requires Sound(View())
      modifies this
      ensures Sound(View()) && View() == Sample(old(View()), us)
    {
      SampleSound(View(), us);
      ghost var e := Sample(View(), us);
      var ticks := us / TICK_US;
      if ticks < 1 {
        ticks := 1;
      }
      if srtt == 0 {
        srtt := ticks * 8;
        rttvar := ticks * 2;
      } else {
        var delta := ticks - srtt / 8;
        srtt := AddSigned(srtt, delta);
        if delta < 0 {
          delta := -delta;
        }
        delta := delta - rttvar / 4;
        rttvar := AddSigned(rttvar, delta);
      }
      assert srtt == e.srtt && rttvar == e.rttvar && e.rto == Clamp(srtt / 8 + rttvar);
      assert Bounded(e, 1, MAX_TICKS);
      hide Sample, Bounded, Ticks, Abs;
      rxtcur := Add32(srtt / 8, rttvar);
      if rxtcur < RTO_MIN {
        rxtcur := RTO_MIN;
      } else if rxtcur > RTO_MAX {
        rxtcur := RTO_MAX;
      }
    }
  }

  /** C's `a += d` for unsigned `a` and int `d`. */
  method AddSigned(a: u32, d: int) returns (r: u32)
    requires -TWO31 <= d < TWO31
    ensures 0 <= a + d < TWO32 ==> r == a + d
    ensures a + d < 0 ==> r == a + d + TWO32
    ensures a + d >= TWO32 ==> r == a + d - TWO32
  {
    r := Add32(a, Wrap(d));
  }

  // ---------- backoff ----------

  /** tcp_backoff: the table has 13 entries, so only shifts up to 12 are defined. */
  function Backoff(shift: nat): (m: int)
    requires shift <= MAX_SHIFT
    ensures 1 <= m <= 64
  {
    [1, 2, 4, 8, 16, 32, 64, 64, 64, 64, 64, 64, 64][shift]
  }

  /** The timeout in ticks after `shift` expirations. */
  function BackedOff(rto: int, shift: nat): (t: int)
    requires RTO_MIN <= rto <= RTO_MAX && shift <= MAX_SHIFT
    ensures RTO_MIN <= t <= RTO_MAX
  {
    Min(rto * Backoff(shift), RTO_MAX)
  }

  /** Each of the first six expirations doubles the timeout up to the 64-second cap; later ones keep it. */
  lemma {:induction false} BackoffDoubles(rto: int, shift: nat)
    requires RTO_MIN <= rto <= RTO_MAX && shift < MAX_SHIFT
    ensures shift < 6 ==> BackedOff(rto, shift + 1) == Min(2 * BackedOff(rto, shift), RTO_MAX)
    ensures shift >= 6 ==> BackedOff(rto, shift + 1) == BackedOff(rto, shift)
    ensures BackedOff(rto, shift + 1) >= BackedOff(rto, shift)
  {
    assert shift < 6 ==> Backoff(shift + 1) == 2 * Backoff(shift);
    assert shift >= 6 ==> Backoff(shift + 1) == Backoff(shift) == 64;
  }
}
