/** The timer fields of the TCB and the operations that update them in place. */
module TimerBlock {
  import opened Serial
  import opened Reassembly
  import opened RttEstimator
  import opened Endpoint

  class Block {
    const est: Estimator
    var rexmt: int
    var delack: int
    var shift: nat
    var rtt: u32
    /** The wire number of the timed segment; position plus one. */
    var rtseq: u32

    ghost function View(): Timers
      reads this, est
    {
      Timers(rexmt, delack, shift, rtt, rtseq - 1, est.View())
    }

    ghost predicate Valid()
      reads this, est
    {
      Sound(est.View()) && shift <= MAX_SHIFT && rtseq < TWO31
    }

    constructor ()
      ensures Valid() && fresh(est) && View() == Timers(0, 0, 0, 0, -1, INITIAL)
    {
      est := new Estimator();
      rexmt, delack, shift, rtt, rtseq := 0, 0, 0, 0, 0;
    }

    /** Data went out at wire number `nxt`: start timing new data, start a stopped timer. */
    method DataSent(nxt: u32, max: u32)
      requires Valid() && nxt < TWO31
      modifies this
      ensures Valid() && View() == AdvanceTimers(old(View()), nxt - 1, max - 1)
    {
      if rtt == 0 && nxt == max {
        rtseq := nxt;
        rtt := 1;
      }
      if rexmt == 0 {
        rexmt := est.rxtcur;
      }
    }

    /** RTT measurement on a new ACK. */
    method OnNewAck(timestamps: bool, ack: u32, sample: Option<u32>)
      requires Valid() && 1 <= ack < TWO31
      modifies this, est
      ensures Valid() && View() == Measure(old(View()), timestamps, ack - 1, sample)
    {
      if timestamps {
        if sample.Some? {
          est.XmitTimer(sample.value);
          rtt := 0;
        }
      } else {
        SerialOrder(ack, rtseq);
        if rtt != 0 && SeqGt(ack, rtseq) {
          est.XmitTimer(Wrap((rtt - 1) * TICK_US));
          rtt := 0;
        }
      }
    }

    /** Retransmission timer management on a new ACK. */
    method RearmRexmt(allAcked: bool)
      requires Valid()
      modifies this
      ensures Valid() && View() == Rearm(old(View()), allAcked)
    {
      if allAcked {
        rexmt := 0;
        shift := 0;
      } else {
        var ticks := est.rxtcur;
        if shift > 0 {
          ticks := est.rxtcur * Backoff(shift);
          if ticks > RTO_MAX {
            ticks := RTO_MAX;
          }
        }
        rexmt := ticks;
      }
    }

    /** The timer part of an expiration. */
    method OnExpiry()
      requires Valid() && shift < MAX_SHIFT
      modifies this
      ensures Valid() && View() == Expire(old(View()))
    {
      shift := shift + 1;
      var base := if est.rxtcur > 0 then est.rxtcur else RTO_DEFAULT;
      rexmt := base * Backoff(shift);
      if rexmt > RTO_MAX {
        rexmt := RTO_MAX;
      }
      rtt := 0;
    }
  }
}
