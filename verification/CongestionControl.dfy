/** The four cong_control functions as they update the TCB: 32-bit windows, recover as a wire
    number, and the SEQ_* tests. */
module CongestionControl {
  import opened Serial
  import opened Congestion

  class Controller {
    const alg: Algorithm
    var cwnd: u32
    var ssthresh: u32
    var recover: u32
    var caState: CaState

    ghost function View(): Cc
      reads this
    {
      Cc(cwnd, ssthresh, recover - 1, caState)
    }

    ghost predicate Valid()
      reads this
    {
      InRange(View())
    }

    /** A controller just after the INIT event of an established connection. */
    constructor (alg: Algorithm)
      ensures Valid() && this.alg == alg
      ensures View() == Cc(MSS * IW, SSTHRESH_MAX, -1, Open)
    {
      this.alg := alg;
      cwnd, ssthresh, recover, caState := MSS * IW, SSTHRESH_MAX, 0, Open;
    }

    /** cc_init. */
    method CcInit()
      requires Valid()
      modifies this
      ensures Valid() && View() == Start(old(View()))
    {
      cwnd := MSS * IW;
      ssthresh := SSTHRESH_MAX;
      caState := Open;
    }

    static lemma {:induction false} StoredSum(a: u32, b: u32)
      ensures Add32(a, b) == Wrap(a + b)
    {
    }

    /** The congestion-avoidance increment, computed in 64 bits; it is at most one MSS. */
    static method Share(acked: nat, cwnd: u32) returns (share: u32)
      requires cwnd > 0
      ensures share == Max(Min(acked, cwnd) * MSS / cwnd, 1) <= MSS
    {
      var eff := Min(acked, cwnd);
      MulMono(eff, cwnd, MSS);
      QuotientBound(eff * MSS, cwnd, MSS);
      share := Max(eff * MSS / cwnd, 1);
    }

    /** cc_aimd. */
    method CcAimd(acked: nat)
      requires Valid()
      modifies this
      ensures Valid()
      ensures var c := Aimd(old(View()), acked); View() == c.(cwnd := Wrap(c.cwnd))
    {
      ghost var c := Aimd(View(), acked);
      if caState == Loss {
        caState := Open;
      }
      if cwnd < ssthresh {
        StoredSum(cwnd, Min(acked, MSS));
        cwnd := Add32(cwnd, Min(acked, MSS));
      } else {
        var share := Share(acked, cwnd);
        assert c.cwnd == cwnd + share;
        hide Growth;
        StoredSum(cwnd, share);
        cwnd := Add32(cwnd, share);
      }
    }

    /** cc_timeout. */
    method CcTimeout(flight: nat)
      requires Valid()
      modifies this
      ensures Valid() && View() == TimeoutCut(old(View()), flight)
    {
      var effective := Min(flight, cwnd);
      var cut := Halve(effective);
      if (caState == Recovery || caState == Loss) && cut > ssthresh {
        cut := ssthresh;
      }
      ssthresh := cut;
      cwnd := MSS;
      caState := Loss;
    }

    /** tahoe_cong_control. */
    method OnTahoe(ev: Event, una: u32, nxt: u32, max: u32) returns (act: Act)
      requires Valid() && Numbers(una, nxt, max).Ok()
      modifies this
      ensures Valid()
      ensures (View(), act) == Control(Tahoe, old(View()), Input(ev, Numbers(una, nxt, max), false))
    {
      act := Quiet;
      match ev
      case Init =>
        CcInit();
      case Ack(acked) =>
        caState := Open;
        CcAimd(acked);
      case DupAck(n) =>
        if n == 3 {
          ssthresh := Halve(Sub32(nxt, una));
          cwnd := MSS;
          act := Retransmit;
        }
      case Timeout(flight) =>
        CcTimeout(flight);
    }

    /** reno_cong_control. */
    method OnReno(ev: Event, una: u32, nxt: u32, max: u32) returns (act: Act)
      requires Valid() && Numbers(una, nxt, max).Ok()
      modifies this
      ensures Valid()
      ensures (View(), act) == Control(Reno, old(View()), Input(ev, Numbers(una, nxt, max), false))
    {
      act := Quiet;
      match ev
      case Init =>
        CcInit();
      case Ack(acked) =>
        if caState == Recovery {
          cwnd := ssthresh;
          caState := Open;
        } else {
          CcAimd(acked);
        }
      case DupAck(n) =>
        if n == 3 {
          ssthresh := Halve(Sub32(nxt, una));
          act := Retransmit;
          caState := Recovery;
          cwnd := Add32(ssthresh, 3 * MSS);
        } else if n > 3 {
          cwnd := Add32(cwnd, MSS);
          act := Burst;
        }
      case Timeout(flight) =>
        CcTimeout(flight);
    }

    /** The ACK event in fast recovery, shared by new_reno_cong_control and lstm_reno_cong_control. */
    method RecoveryAck(acked: nat, una: u32, ghost max: int) returns (act: Act)
      requires Valid() && caState == Recovery && 1 <= una <= max + 1 < TWO31
      modifies this
      ensures Valid()
      ensures forall i: Input :: i.ev == Ack(acked) && i.w.una == una - 1 ==>
        (View(), act) == Control(NewReno, old(View()), i) == Control(LstmReno, old(View()), i)
    {
      act := Quiet;
      SerialOrder(una, recover);
      if SeqGeq(una, recover) {
        cwnd := ssthresh;
        caState := Open;
      } else {
        act := Retransmit;
        cwnd := if acked >= cwnd then MSS else cwnd - acked;
        cwnd := Add32(cwnd, MSS);
      }
    }

    /** The duplicate-ACK event, shared by new_reno_cong_control and lstm_reno_cong_control. */
    method RecoveryDup(n: nat, una: u32, nxt: u32, max: u32) returns (act: Act)
      requires Valid() && Numbers(una, nxt, max).Ok()
      modifies this
      ensures Valid()
      ensures forall i: Input :: i.ev == DupAck(n) && i.w == Numbers(una, nxt, max) ==>
        (View(), act) == Control(NewReno, old(View()), i) == Control(LstmReno, old(View()), i)
    {
      act := Quiet;
      SerialOrder(una, recover);
      assert SeqGt(una, recover) <==> una > recover;
      StoredSum(Halve(Sub32(nxt, una)), 3 * MSS);
      StoredSum(cwnd, MSS);
      hide Wrap, Add32, SeqGt;
      if n == 3 {
        if SeqGt(una, recover) {
          ssthresh := Halve(Sub32(nxt, una));
          recover := max;
          act := Retransmit;
          caState := Recovery;
          cwnd := Add32(ssthresh, 3 * MSS);
        }
      } else if n > 3 && caState == Recovery {
        cwnd := Add32(cwnd, MSS);
        act := Burst;
      }
    }

    /** new_reno_cong_control. */
    method OnNewReno(ev: Event, una: u32, nxt: u32, max: u32) returns (act: Act)
      requires Valid() && Numbers(una, nxt, max).Ok()
      modifies this
      ensures Valid()
      ensures (View(), act) == Control(NewReno, old(View()), Input(ev, Numbers(una, nxt, max), false))
    {
      act := Quiet;
      match ev
      case Init =>
        CcInit();
        recover := 0;
      case Ack(acked) =>
        if caState == Recovery {
          act := RecoveryAck(acked, una, max - 1);
        } else {
          CcAimd(acked);
        }
      case DupAck(n) =>
        act := RecoveryDup(n, una, nxt, max);
      case Timeout(flight) =>
        recover := max;
        CcTimeout(flight);
    }

    /** lstm_reno_cong_control, with the predictor's answer as an input. */
    method OnLstmReno(ev: Event, una: u32, nxt: u32, max: u32, fired: bool) returns (act: Act)
      requires Valid() && Numbers(una, nxt, max).Ok()
      modifies this
      ensures Valid()
      ensures (View(), act) == Control(LstmReno, old(View()), Input(ev, Numbers(una, nxt, max), fired))
    {
      act := Quiet;
      match ev
      case Init =>
        CcInit();
        recover := 0;
      case Ack(acked) =>
        if caState == Recovery {
          act := RecoveryAck(acked, una, max - 1);
        } else {
          if fired {
            var cut := Halve(Sub32(nxt, una));
            if cut < ssthresh {
              ssthresh := cut;
            }
          }
          CcAimd(acked);
        }
      case DupAck(n) =>
        act := RecoveryDup(n, una, nxt, max);
      case Timeout(flight) =>
        recover := max;
        CcTimeout(flight);
    }

    /** The cc_ops dispatch. Only LSTM-Reno looks at `fired`. */
    method Dispatch(ev: Event, una: u32, nxt: u32, max: u32, fired: bool) returns (act: Act)
      requires Valid() && Numbers(una, nxt, max).Ok()
      modifies this
      ensures Valid()
      ensures (View(), act) == Control(alg, old(View()), Input(ev, Numbers(una, nxt, max), fired))
    {
      match alg
      case Tahoe =>
        act := OnTahoe(ev, una, nxt, max);
      case Reno =>
        act := OnReno(ev, una, nxt, max);
      case NewReno =>
        act := OnNewReno(ev, una, nxt, max);
      case LstmReno =>
        act := OnLstmReno(ev, una, nxt, max, fired);
    }
  }

  /** The flight whose wire numbers these are; the initial sequence number is 0. */
  function Numbers(una: u32, nxt: u32, max: u32): Flight { Flight(una - 1, nxt - 1, max - 1) }
}
