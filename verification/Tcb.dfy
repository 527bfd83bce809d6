/** The transmission control block: the lock-held handlers of the code updating their parts in place,
    proved to follow the endpoint functions step by step. */
module Tcb {
  import opened Serial
  import opened Ring
  import opened Reassembly
  import opened Congestion
  import opened RttEstimator
  import opened WindowScale
  import opened Endpoint
  import opened EndpointInvariant
  import opened ReceivePath
  import opened SendPath
  import opened CongestionControl
  import opened TimerBlock

  /** A segment with its wire numbers. */
  datatype Packet = Packet(num: u32, ack: u32, win: u16, payload: Bytes)

  /** The initial sequence number is 0 on both sides, so position p has wire number p + 1. */
  predicate Carries(p: Packet, s: Segment) {
    p.num == Number(0, s.pos) && p.ack == Number(0, s.ack) && p.win == s.win && p.payload == s.payload
  }

  predicate Carried(sent: seq<Packet>, out: seq<Segment>) {
    |sent| == |out| && forall i :: 0 <= i < |sent| ==> Carries(sent[i], out[i])
  }

  lemma {:induction false} CarriedAppend(sent: seq<Packet>, out: seq<Segment>, p: Packet, s: Segment)
    requires Carried(sent, out) && Carries(p, s)
    ensures Carried(sent + [p], out + [s])
  {
  }

  /** A packet within reach of rcv_nxt decodes to the segment it carries. */
  lemma {:induction false} PacketDecodes(p: Packet, s: Segment, nxt: int)
    requires Carries(p, s) && -TWO31 <= s.pos - nxt < TWO31 && 0 <= s.ack < STREAM_LIMIT
    ensures Unwrap(1 + nxt, p.num) - 1 == s.pos && p.ack - 1 == s.ack
  {
    UnwrapWrap(1 + nxt, 1 + s.pos);
  }

  /** The RTT sample of an echoed timestamp; TSecr 0 means none was echoed. */
  function SampleOf(echo: Option<u32>, now: nat): Option<u32> {
    if echo.Some? && echo.value != 0 then Some(Wrap(now - echo.value)) else None
  }

  /** The sample is the time from the echoed timestamp to now, modulo 2^32 microseconds. */
  lemma {:induction false} EchoSample(echo: u32, now: nat)
    ensures if echo == 0 then SampleOf(Some(echo), now) == None
            else SampleOf(Some(echo), now).Some? && Wrap(echo + SampleOf(Some(echo), now).value) == Wrap(now)
    ensures SampleOf(None, now) == None
  {
  }

  class Tcb {
    const opt: Options
    const tx: SendSide
    const rx: ReceiveSide
    const cong: Controller
    const tm: Block
    var dupacks: nat
    var ackNow: bool
    var delAck: bool
    /** Packets handed to UDP, in order. */
    var sent: seq<Packet>
    /** The same history as segments, with what else has happened. */
    ghost var hist: History

    /** The endpoint this block represents. */
    ghost function View(): Endpoint
      reads this, tx, rx, cong, tm, tm.est
    {
      Endpoint(cong.alg, opt, tx.view, cong.View(), tm.View(), rx.view, dupacks, ackNow, delAck, hist)
    }

    ghost predicate Separate() {
      tx.sendBuf != rx.recvBuf
    }

    /** Each part is valid and the packets encode the history; holds throughout a handler. */
    ghost predicate Coherent()
      reads this, tx, tx.sendBuf, rx, rx.recvBuf, cong, tm, tm.est
    {
      && Separate()
      && tx.Valid() && rx.Valid() && rx.irs == 0 && cong.Valid() && tm.Valid()
      && Carried(sent, hist.out) && dupacks <= 255
    }

    /** Holds at every lock release. */
    ghost predicate Valid()
      reads this, tx, tx.sendBuf, rx, rx.recvBuf, cong, tm, tm.est
    {
      Coherent() && Inv(View())
    }

    /** An endpoint just after the handshake. */
    constructor (alg: Algorithm, opt: Options, wnd: u32)
      ensures Valid() && View() == Established(alg, opt, wnd)
      ensures fresh(tx) && fresh(tx.sendBuf) && fresh(rx) && fresh(rx.recvBuf)
      ensures fresh(cong) && fresh(tm) && fresh(tm.est)
    {
      hide Inv, Holds, Encodes, SortedFrom, InReach, Count, Sound;
      EstablishedInv(alg, opt, wnd);
      this.opt := opt;
      tx := new SendSide(wnd);
      rx := new ReceiveSide(0);
      cong := new Controller(alg);
      tm := new Block();
      dupacks, ackNow, delAck, sent := 0, false, false, [];
      hist := History([], [], [], 0, 0);
    }

    // ---------- output ----------

    static lemma {:induction false} StoredFree(r: Receive)
      requires Consistent(r)
      ensures Wrap(r.Free()) == r.Free()
    {
    }

    static lemma {:induction false} NumberOf(num: u32)
      requires num > 0
      ensures Number(0, num - 1) == num
    {
    }

    /** utcp_send_segment. */
    method SendSegment(num: u32, len: nat)
      requires Coherent()
      requires tx.view.una <= num - 1 && num - 1 + len <= |tx.view.stream|
      modifies this`sent, this`hist
      ensures Coherent() && View() == Emit(old(View()), num - 1, len)
    {
      hide Carried, Holds, Encodes, SortedFrom, InReach, Count;
      var free := rx.FreeSpace();
      var win := ToField(opt.scaled, RCV_SCALE, free);
      StoredFree(rx.view);
      hide ToField, Wrap;
      var payload := tx.Payload(num, len);
      var p := Packet(num, rx.rcvNxt, win, payload);
      ghost var s := Segment(num - 1, rx.view.nxt, win, payload);
      assert Carries(p, s) by { NumberOf(num); }
      CarriedAppend(sent, hist.out, p, s);
      sent := sent + [p];
      hist := hist.(out := hist.out + [s], lastAck := rx.view.nxt, unacked := 0);
    }

    /** utcp_retransmit_segment(snd_una). */
    method RetransmitSegment()
      requires Coherent()
      modifies this`sent, this`hist
      ensures Coherent() && View() == RetransmitHead(old(View()))
    {
      var len := tx.RetransmitLength();
      SendSegment(tx.una, len);
      hist := hist.(rexmits := hist.rexmits + [Head(tx.view)]);
    }

    /** The data_length of one pass of the output loop. */
    method ChunkLength() returns (len: nat)
      requires Coherent()
      ensures len == Chunk(View())
    {
      var window := Min(tx.wnd, cong.cwnd);
      var inflight := tx.Inflight();
      var buffered := tx.Backlog();
      len := 0;
      if window > inflight {
        len := Min(buffered, window - inflight);
        if len > MSS {
          len := MSS;
        }
        if 0 < len < MSS && inflight > 0 {
          len := 0;
        }
      }
    }

    /** The bookkeeping of a pass that sent `len` payload bytes. */
    method AdvanceNxt(len: nat)
      requires Coherent() && tx.view.nxt + len <= |tx.view.stream|
      modifies tx`nxt, tx`max, tx`view, tm
      ensures Coherent() && View() == Advance(old(View()), len)
    {
      tm.DataSent(tx.nxt, tx.max);
      tx.AdvanceNxt(len);
    }

    /** Any delayed ACK rides on the outgoing segment. */
    method PiggybackAck()
      requires Coherent()
      modifies this`delAck, tm`delack
      ensures Coherent() && View() == CancelDelayed(old(View()))
    {
      if delAck {
        delAck := false;
        tm.delack := 0;
      }
    }

    /** One pass of the output loop; `more` is false where the source breaks out. */
    method OutputPass(force: bool) returns (more: bool)
      requires Coherent()
      modifies this`sent, this`hist, this`delAck, tx, tm
      ensures Coherent()
      ensures if more then OutputLoop(View(), false) == OutputLoop(old(View()), force)
              else View() == OutputLoop(old(View()), force)
      ensures if more then tx.view.nxt > old(tx.view).nxt else tx.view.nxt == old(tx.view).nxt
      ensures tx.view.stream == old(tx.view).stream
    {
      ghost var e := View();
      Unfold(e, force);
      hide OutputLoop, Chunk, Emit, Advance, CancelDelayed, Coherent;
      var len := ChunkLength();
      if len == 0 && !force {
        return false;
      }
      SendNext(len);
      if len == 0 {
        return false;
      }
      AdvanceNxt(len);
      return true;
    }

    /** The segment at snd_nxt goes out. */
    method SendNext(len: nat)
      requires Coherent() && tx.view.nxt + len <= |tx.view.stream|
      modifies this`sent, this`hist, this`delAck, tm`delack
      ensures Coherent() && View() == Emit(CancelDelayed(old(View())), old(View()).snd.nxt, len)
    {
      hide Emit, Holds, Carried, ReceiveSide.Valid;
      PiggybackAck();
      SendSegment(tx.nxt, len);
    }

    /** One unfolding of the output loop, and what its parts leave alone. */
    static lemma {:induction false} Unfold(e: Endpoint, force: bool)
      requires Ready(e)
      ensures var d := Chunk(e); var e1 := CancelDelayed(e);
        && Ready(e1) && e1.snd == e.snd && e.snd.nxt + d <= |e.snd.stream|
        && var e2 := Emit(e1, e.snd.nxt, d);
           && Ready(e2) && e2.snd == e.snd
           && Advance(e2, d).snd == AdvanceSend(e.snd, d)
           && OutputLoop(e, force) ==
                if d == 0 then (if force then e2 else e) else OutputLoop(Advance(e2, d), false)
    {
    }

    /** utcp_output. */
    method Transmit()
      requires Coherent()
      modifies this`sent, this`hist, this`ackNow, this`delAck, tx, tm
      ensures Coherent() && View() == Output(old(View()))
    {
      var force := ackNow;
      ackNow := false;
      ghost var final := OutputLoop(View(), force);
      var more := true;
      while more
        invariant Coherent()
        invariant if more then OutputLoop(View(), force) == final else View() == final
        decreases |tx.view.stream| - tx.view.nxt, more
      {
        more := OutputPass(force);
        force := false;
      }
    }

    /** Output with an ACK forced. */
    method AckAtOnce()
      requires Coherent()
      modifies this`sent, this`hist, this`ackNow, this`delAck, tx, tm
      ensures Coherent() && View() == Output(old(View()).(acknow := true))
    {
      hide Output, Carried, SendSide.Valid, ReceiveSide.Valid, Controller.Valid, Block.Valid;
      ackNow := true;
      Transmit();
    }

    // ---------- acknowledgement processing ----------

    /** The variables cong_control updates, and what it asks for. */
    method Decide(ev: Event, fired: bool) returns (act: Act)
      requires Coherent()
      modifies cong
      ensures Coherent()
      ensures var (c, a) := NextCc(old(View()), ev, fired); act == a && View() == old(View()).(cc := c)
    {
      hide Carried, ReceiveSide.Valid, Block.Valid, Control, Holds;
      act := cong.Dispatch(ev, tx.una, tx.nxt, tx.max, fired);
    }

    /** The retransmission or burst cong_control asks for. */
    method DoAct(act: Act)
      requires Coherent()
      modifies this`sent, this`hist, this`ackNow, this`delAck, tx, tm
      ensures Coherent() && View() == Perform(old(View()), act)
    {
      match act
      case Quiet =>
      case Retransmit =>
        RetransmitSegment();
        if cong.alg.NewReno? || cong.alg.LstmReno? {
          tm.rtt := 0;
        }
      case Burst =>
        Transmit();
    }

    /** cong_control and its effects. */
    method CongControl(ev: Event, fired: bool)
      requires Coherent()
      modifies this`sent, this`hist, this`ackNow, this`delAck, tx, tm, cong
      ensures Coherent() && View() == Congest(old(View()), ev, fired)
    {
      var act := Decide(ev, fired);
      DoAct(act);
    }

    /** An ACK of new data, up to the congestion event. */
    method SlideWindow(ack: u32, wnd: u32, sample: Option<u32>) returns (newly: u32)
      requires Coherent() && tx.view.una < ack - 1 <= tx.view.max
      modifies this`dupacks, tx, tm, tm.est
      ensures Coherent() && View() == Slide(old(View()), ack - 1, wnd, sample)
      ensures newly == ack - 1 - old(tx.view).una
    {
      hide ReceiveSide.Valid, Controller.Valid, Carried;
      newly := tx.Slide(ack, wnd);
      dupacks := 0;
      tm.OnNewAck(opt.timestamps, ack, sample);
      tm.RearmRexmt(tx.una == tx.max);
    }

    /** The branch for an ACK of new data. */
    method NewData(ack: u32, wnd: u32, sample: Option<u32>, fired: bool)
      requires Coherent() && tx.view.una < ack - 1 <= tx.view.max
      modifies this, tx, tm, tm.est, cong
      ensures Coherent() && View() == NewAck(old(View()), ack - 1, wnd, sample, fired)
    {
      hide Congest, Slide;
      var newly := SlideWindow(ack, wnd, sample);
      CongControl(Ack(newly), fired);
    }

    /** A duplicate ACK is counted, up to 255. */
    method CountDuplicate(wnd: u32)
      requires Coherent()
      modifies this`dupacks, tx`wnd, tx`view
      ensures Coherent()
      ensures var e := old(View());
        View() == e.(snd := e.snd.(wnd := wnd), dupacks := Min(e.dupacks + 1, 255))
    {
      tx.SetWindow(wnd);
      if dupacks < 255 {
        dupacks := dupacks + 1;
      }
    }

    /** The branch for a duplicate ACK while data is in flight. */
    method Duplicate(wnd: u32, fired: bool)
      requires Coherent()
      modifies this, tx, tm, cong
      ensures Coherent() && View() == RepeatedAck(old(View()), wnd, fired)
    {
      CountDuplicate(wnd);
      CongControl(DupAck(dupacks), fired);
    }

    /** The acknowledgement half of handle_received_data. */
    method ProcessAck(p: Packet, ghost s: Segment, sample: Option<u32>, fired: bool)
      requires Coherent()
      requires s.ack == p.ack - 1 && s.win == p.win && s.payload == p.payload
      modifies this, tx, tm, tm.est, cong
      ensures Coherent() && View() == HandleAck(old(View()), s, sample, fired)
    {
      hide NewAck, RepeatedAck;
      var wnd := FromField(opt.scaled, opt.peerScale, p.win);
      var ok := tx.Acceptable(p.ack);
      if ok {
        NewData(p.ack, wnd, sample, fired);
      } else if p.ack == tx.una {
        if wnd > tx.wnd {
          tx.SetWindow(wnd);
        } else if p.payload == [] && tx.una != tx.max {
          Duplicate(wnd, fired);
        }
      }
    }

    // ---------- data arrival ----------

    /** The delayed-ACK decision after an accepted in-order segment. */
    method DecideAck(gapFilled: bool)
      requires Coherent()
      modifies this`ackNow, this`delAck, this`hist, tm`delack
      ensures Coherent() && View() == Acknowledge(old(View()), gapFilled)
    {
      hide SendSide.Valid, ReceiveSide.Valid, Controller.Valid, Carried;
      hist := hist.(unacked := hist.unacked + 1);
      if gapFilled || dupacks > 0 || delAck {
        delAck := false;
        tm.delack := 0;
        ackNow := true;
      } else {
        delAck := true;
        tm.delack := DELACK_TICKS;
      }
    }

    /** The receive half of handle_received_data. */
    method ProcessData(p: Packet, ghost s: Segment)
      requires Coherent() && p.payload != [] && s.payload == p.payload
      requires s.pos == rx.Position(p.num) && s.pos + |p.payload| < rx.view.nxt + TWO31
      modifies this, tx, tm, rx, rx.recvBuf
      ensures Coherent() && View() == HandleData(old(View()), s)
    {
      hide Output, Arrive, Coherent;
      Unmoved(rx.view, s.pos, s.payload);
      var outcome := TakeSegment(p, s);
      match outcome
      case Duplicate =>
        AckAtOnce();
      case NoSpace =>
      case OutOfOrder =>
        AckAtOnce();
      case Accepted(gap) =>
        DecideAck(gap);
        Transmit();
    }

    static lemma {:induction false} Unmoved(r: Receive, pos: int, data: Bytes)
      requires data != []
      ensures var (r', outcome) := Arrive(r, pos, data); outcome.Duplicate? || outcome.NoSpace? ==> r' == r
    {
    }

    /** The payload goes to the receive side. */
    method TakeSegment(p: Packet, ghost s: Segment) returns (outcome: Outcome)
      requires Coherent() && p.payload != [] && s.payload == p.payload
      requires s.pos == rx.Position(p.num) && s.pos + |p.payload| < rx.view.nxt + TWO31
      modifies rx, rx.recvBuf
      ensures Coherent() && outcome == Arrive(old(View()).rcv, s.pos, s.payload).1
      ensures View() == old(View()).(rcv := Arrive(old(View()).rcv, s.pos, s.payload).0)
    {
      hide Arrive, Carried;
      outcome := rx.Arrives(p.num, p.payload);
    }

    /** The segment a packet stands for, read against rcv_nxt. */
    ghost function Decoded(p: Packet): Segment
      reads rx
    {
      Segment(rx.Position(p.num), p.ack - 1, p.win, p.payload)
    }

    /** handle_received_data. The peer's packets end less than 2^31 past rcv_nxt; any ACK number may
        arrive. */
    method HandlePacket(p: Packet, echo: Option<u32>, now: nat, fired: bool)
      requires Valid()
      requires Decoded(p).pos + |p.payload| < rx.view.nxt + TWO31
      modifies this, tx, tm, tm.est, cong, rx, rx.recvBuf
      ensures Valid() && View() == OnSegment(old(View()), old(Decoded(p)), SampleOf(echo, now), fired)
    {
      var sample := SampleOf(echo, now);
      hide Output, HandleAck, HandleData, Inv;
      ghost var e, s := View(), Decoded(p);
      OnSegmentKeeps(e, s, sample, fired);
      HandleAckKeeps(e, s, sample, fired);
      ProcessAck(p, s, sample, fired);
      if p.payload == [] {
        Transmit();
      } else {
        ProcessData(p, s);
      }
    }

    // ---------- the application ----------

    /** utcp_send up to the point where it returns or blocks: `n` bytes taken. */
    method SendData(data: Bytes) returns (n: nat)
      requires Valid() && |tx.view.stream| + |data| < STREAM_LIMIT
      modifies this, tx, tx.sendBuf, tm
      ensures Valid() && n == Min(|data|, SendRoom(old(View())))
      ensures n < |data| ==> |View().snd.stream| - View().snd.una == BUF_SIZE
      ensures View() == if n == 0 then old(View()) else OnSend(old(View()), data[..n])
    {
      hide Output, Inv;
      var room := tx.Room();
      n := Min(|data|, room);
      if n > 0 {
        OnSendKeeps(View(), data[..n]);
        tx.Store(data[..n]);
        Transmit();
      }
    }

    /** utcp_read once bytes are available. */
    method ReadData(len: nat) returns (bytes: Bytes)
      requires Valid()
      modifies this, tx, tm, rx
      ensures Valid() && View() == OnRead(old(View()), len)
      ensures hist.read == old(hist.read) + bytes
    {
      hide Output, Inv;
      OnReadKeeps(View(), len);
      var available := Sub32(rx.tail, rx.head);
      SerialOrder(rx.view.nxt, rx.view.ReadPos());
      bytes := rx.Take(len);
      hist := hist.(read := hist.read + bytes);
      var free := rx.FreeSpace();
      if free >= MSS || available == BUF_SIZE {
        AckAtOnce();
      }
    }

    // ---------- timers ----------

    /** The TCPT_REXMT case of utcp_timers. */
    method RexmtTimeout(fired: bool)
      requires Coherent() && tm.shift < MAX_SHIFT
      modifies this, tx, tm, cong
      ensures Coherent() && View() == RexmtExpired(old(View()), fired)
    {
      hide Congest, Output, ReceiveSide.Valid, Controller.Valid, Carried;
      tm.OnExpiry();
      var flight := tx.RollBack();
      CongControl(Timeout(flight), fired);
      Transmit();
    }

    method RexmtTick(fired: bool)
      requires Coherent() && (tm.rexmt == 1 ==> tm.shift < MAX_SHIFT)
      modifies this, tx, tm, cong
      ensures Coherent() && View() == TickRexmt(old(View()), fired)
    {
      hide RexmtExpired;
      if tm.rexmt > 0 {
        tm.rexmt := tm.rexmt - 1;
        if tm.rexmt == 0 {
          RexmtTimeout(fired);
        }
      }
    }

    method DelackTick()
      requires Coherent()
      modifies this, tx, tm
      ensures Coherent() && View() == TickDelack(old(View()))
    {
      hide Output, Carried, SendSide.Valid, ReceiveSide.Valid, Controller.Valid;
      if tm.delack > 0 {
        tm.delack := tm.delack - 1;
        if tm.delack == 0 {
          delAck := false;
          AckAtOnce();
        }
      }
    }

    /** The per-TCB body of the slow timer. */
    method SlowTick(fired: bool)
      requires Valid() && (tm.rexmt == 1 ==> tm.shift < MAX_SHIFT)
      modifies this, tx, tm, cong
      ensures Valid() && View() == OnTick(old(View()), fired)
    {
      hide TickRexmt, TickDelack, Inv, SendSide.Valid, ReceiveSide.Valid, Controller.Valid, Carried;
      OnTickKeeps(View(), fired);
      if tm.rtt > 0 {
        tm.rtt := Add32(tm.rtt, 1);
      }
      RexmtTick(fired);
      DelackTick();
    }
  }
}
