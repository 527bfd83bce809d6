/** One established UTCP endpoint on stream positions: every lock-held handler as a function. */
module Endpoint {
  import opened Serial
  import opened Ring
  import opened Reassembly
  import opened Congestion
  import opened RttEstimator
  import opened WindowScale

  const DELACK_TICKS: int := 20

  /** The sender's code is exact for streams shorter than this. */
  const STREAM_LIMIT: int := TWO31 - 1

  /** A segment on the network: payload position, cumulative acknowledgement, window field. */
  datatype Segment = Segment(pos: int, ack: int, win: u16, payload: Bytes)

  /** Everything accepted by utcp_send so far, and the send sequence variables as positions in it.
      send_buf_tail is |stream| and send_buf_head is una. */
  datatype Send = Send(stream: Bytes, una: int, nxt: int, max: int, wnd: u32)

  datatype Timers = Timers(rexmt: int, delack: int, shift: nat, rtt: u32, rtseq: int, est: Estimate)

  /** A fast retransmission: stream bytes lo..hi, with snd_max as it was then. */
  datatype Resent = Resent(lo: int, hi: int, max: int)

  /** What has happened so far: segments sent, fast retransmissions, bytes given to the application,
      the last acknowledgement sent and the in-order segments accepted since. */
  datatype History = History(out: seq<Segment>, rexmits: seq<Resent>, read: Bytes, lastAck: int, unacked: nat)

  /** Negotiated during the handshake. */
  datatype Options = Options(scaled: bool, peerScale: nat, timestamps: bool)

  datatype Endpoint = Endpoint(alg: Algorithm, opt: Options, snd: Send, cc: Cc, tm: Timers, rcv: Receive,
                               dupacks: nat, acknow: bool, delayed: bool, hist: History)

  /** ESTABLISHED, straight after a loss-free handshake. */
  function Established(alg: Algorithm, opt: Options, wnd: u32): Endpoint {
    Endpoint(alg, opt, Send([], 0, 0, 0, wnd), Cc(MSS * IW, SSTHRESH_MAX, -1, Open),
             Timers(0, 0, 0, 0, -1, INITIAL), Receive(0, [], []), 0, false, false, History([], [], [], 0, 0))
  }

  /** What the handlers rely on and keep. */
  predicate Ready(e: Endpoint) {
    && 0 <= e.snd.una <= e.snd.nxt <= e.snd.max <= |e.snd.stream|
    && e.cc.ssthresh > 0
    && Sound(e.tm.est)
    && e.tm.shift <= MAX_SHIFT
  }

  // ---------- output ----------

  /** utcp_send_segment: the stream slice at `pos`, acknowledging everything received in order. */
  function Emit(e: Endpoint, pos: int, len: nat): Endpoint
    requires 0 <= pos && pos + len <= |e.snd.stream|
  {
    var win := ToField(e.opt.scaled, RCV_SCALE, Wrap(e.rcv.Free()));
    var s := Segment(pos, e.rcv.nxt, win, e.snd.stream[pos..pos + len]);
    e.(hist := e.hist.(out := e.hist.out + [s], lastAck := e.rcv.nxt, unacked := 0))
  }

  /** What utcp_retransmit_segment sends at snd_una: up to one MSS, possibly past snd_max. */
  function Head(s: Send): Resent { Resent(s.una, s.una + Min(|s.stream| - s.una, MSS), s.max) }

  /** utcp_retransmit_segment at snd_una. */
  function RetransmitHead(e: Endpoint): Endpoint
    requires Ready(e)
  {
    var e1 := Emit(e, e.snd.una, Min(|e.snd.stream| - e.snd.una, MSS));
    e1.(hist := e1.hist.(rexmits := e1.hist.rexmits + [Head(e.snd)]))
  }

  /** The data_length one pass of the output loop computes: windows, MSS and Nagle. */
  function Chunk(e: Endpoint): nat
    requires Ready(e)
  {
    var window := Min(e.snd.wnd, e.cc.cwnd);
    var inflight := e.snd.nxt - e.snd.una;
    if window > inflight then
      var d := Min(Min(|e.snd.stream| - e.snd.nxt, window - inflight), MSS);
      if 0 < d < MSS && inflight > 0 then 0 else d
    else 0
  }

  /** snd_nxt and snd_max after `d` payload bytes went out. */
  function AdvanceSend(s: Send, d: nat): Send {
    s.(nxt := s.nxt + d, max := Max(s.max, s.nxt + d))
  }

  /** RTT tracking of new data and arming of the retransmission timer. */
  function AdvanceTimers(t: Timers, nxt: int, max: int): Timers {
    var track := t.rtt == 0 && nxt == max;
    t.(rtt := if track then 1 else t.rtt,
       rtseq := if track then nxt else t.rtseq,
       rexmt := if t.rexmt == 0 then t.est.rto else t.rexmt)
  }

  /** The bookkeeping after `d` payload bytes went out at nxt. */
  function Advance(e: Endpoint, d: nat): Endpoint
    requires Ready(e) && e.snd.nxt + d <= |e.snd.stream|
    ensures Ready(Advance(e, d))
  {
    e.(tm := AdvanceTimers(e.tm, e.snd.nxt, e.snd.max), snd := AdvanceSend(e.snd, d))
  }

  /** A segment is going out: any delayed ACK rides on it. */
  function CancelDelayed(e: Endpoint): Endpoint {
    if e.delayed then e.(delayed := false, tm := e.tm.(delack := 0)) else e
  }

  /** The loop of utcp_output. */
  function OutputLoop(e: Endpoint, force: bool): (e': Endpoint)
    requires Ready(e)
    ensures Ready(e')
    decreases |e.snd.stream| - e.snd.nxt
  {
    var d := Chunk(e);
    if d == 0 && !force then e
    else
      var sent := Emit(CancelDelayed(e), e.snd.nxt, d);
      if d == 0 then sent else OutputLoop(Advance(sent, d), false)
  }

  /** utcp_output. */
  function Output(e: Endpoint): (e': Endpoint)
    requires Ready(e)
    ensures Ready(e')
  {
    OutputLoop(e.(acknow := false), e.acknow)
  }

  // ---------- congestion events ----------

  function Perform(e: Endpoint, act: Act): (e': Endpoint)
    requires Ready(e)
    ensures Ready(e')
  {
    match act
    case Quiet => e
    case Retransmit =>
      var e1 := RetransmitHead(e);
      if e.alg.NewReno? || e.alg.LstmReno? then e1.(tm := e1.tm.(rtt := 0)) else e1
    case Burst => Output(e)
  }

  /** The congestion-control state after an event. */
  function NextCc(e: Endpoint, ev: Event, fired: bool): (Cc, Act)
    requires Ready(e)
  {
    Control(e.alg, e.cc, Input(ev, Flight(e.snd.una, e.snd.nxt, e.snd.max), fired))
  }

  /** cong_control and what it asks for. */
  function Congest(e: Endpoint, ev: Event, fired: bool): (e': Endpoint)
    requires Ready(e)
    ensures Ready(e')
  {
    var (c, act) := NextCc(e, ev, fired);
    Perform(e.(cc := c), act)
  }

  // ---------- acknowledgement processing ----------

  /** RTT measurement on a new ACK: the echoed timestamp if that option is on, else the tick count. */
  function Measured(t: Timers, timestamps: bool, ack: int, sample: Option<u32>): Option<u32> {
    if timestamps then sample
    else if t.rtt != 0 && ack > t.rtseq then Some(Wrap((t.rtt - 1) * TICK_US))
    else None
  }

  function Measure(t: Timers, timestamps: bool, ack: int, sample: Option<u32>): (t': Timers)
    requires Sound(t.est)
    ensures Sound(t'.est)
  {
    match Measured(t, timestamps, ack, sample)
    case None => t
    case Some(us) =>
      SampleSound(t.est, us);
      t.(est := Sample(t.est, us), rtt := 0)
  }

  /** Retransmission timer management on a new ACK (section 5 of RFC 6298). */
  function Rearm(t: Timers, allAcked: bool): Timers
    requires Sound(t.est) && t.shift <= MAX_SHIFT
  {
    if allAcked then t.(rexmt := 0, shift := 0)
    else t.(rexmt := BackedOff(t.est.rto, t.shift))
  }

  /** snd_una, snd_nxt and snd_wnd after an acceptable new ACK. */
  function SlideSend(s: Send, ack: int, wnd: u32): Send {
    s.(una := ack, nxt := Max(s.nxt, ack), wnd := wnd)
  }

  /** The snd_una < ack <= snd_max branch, up to the congestion event. */
  function Slide(e: Endpoint, ack: int, wnd: u32, sample: Option<u32>): (e': Endpoint)
    requires Ready(e) && e.snd.una < ack <= e.snd.max
    ensures Ready(e')
  {
    var t := Measure(e.tm, e.opt.timestamps, ack, sample);
    e.(snd := SlideSend(e.snd, ack, wnd), dupacks := 0, tm := Rearm(t, ack == e.snd.max))
  }

  /** An acknowledgement of new data. */
  function NewAck(e: Endpoint, ack: int, wnd: u32, sample: Option<u32>, fired: bool): (e': Endpoint)
    requires Ready(e) && e.snd.una < ack <= e.snd.max
    ensures Ready(e')
  {
    Congest(Slide(e, ack, wnd, sample), Ack(ack - e.snd.una), fired)
  }

  /** A duplicate acknowledgement while data is in flight. */
  function RepeatedAck(e: Endpoint, wnd: u32, fired: bool): (e': Endpoint)
    requires Ready(e)
    ensures Ready(e')
  {
    var dups := Min(e.dupacks + 1, 255);
    Congest(e.(snd := e.snd.(wnd := wnd), dupacks := dups), DupAck(dups), fired)
  }

  /** The acknowledgement half of handle_received_data. */
  function HandleAck(e: Endpoint, s: Segment, sample: Option<u32>, fired: bool): (e': Endpoint)
    requires Ready(e)
    ensures Ready(e')
  {
    var wnd := FromField(e.opt.scaled, e.opt.peerScale, s.win);
    if e.snd.una < s.ack <= e.snd.max then NewAck(e, s.ack, wnd, sample, fired)
    else if s.ack == e.snd.una then
      if wnd > e.snd.wnd then e.(snd := e.snd.(wnd := wnd))
      else if s.payload == [] && e.snd.una != e.snd.max then RepeatedAck(e, wnd, fired)
      else e
    else e
  }

  // ---------- data arrival ----------

  /** The delayed-ACK decision after an in-order segment was accepted. */
  function Acknowledge(e: Endpoint, gapFilled: bool): Endpoint {
    var e1 := e.(hist := e.hist.(unacked := e.hist.unacked + 1));
    if gapFilled || e.dupacks > 0 || e.delayed then
      e1.(delayed := false, acknow := true, tm := e.tm.(delack := 0))
    else
      e1.(delayed := true, tm := e.tm.(delack := DELACK_TICKS))
  }

  function HandleData(e: Endpoint, s: Segment): (e': Endpoint)
    requires Ready(e) && s.payload != []
    ensures Ready(e')
  {
    var (r, outcome) := Arrive(e.rcv, s.pos, s.payload);
    match outcome
    case Duplicate => Output(e.(acknow := true))
    case NoSpace => e
    case OutOfOrder => Output(e.(rcv := r, acknow := true))
    case Accepted(gap) => Output(Acknowledge(e.(rcv := r), gap))
  }

  // ---------- the handlers ----------

  /** handle_received_data. `sample` is the measured round trip when a timestamp was echoed. */
  function OnSegment(e: Endpoint, s: Segment, sample: Option<u32>, fired: bool): (e': Endpoint)
    requires Ready(e)
    ensures Ready(e')
  {
    var e1 := HandleAck(e, s, sample, fired);
    if s.payload == [] then Output(e1) else HandleData(e1, s)
  }

  /** The room utcp_send sees. */
  function SendRoom(e: Endpoint): int { BUF_SIZE - (|e.snd.stream| - e.snd.una) }

  /** One pass of the utcp_send loop with `data` chosen to fit the room. */
  function OnSend(e: Endpoint, data: Bytes): (e': Endpoint)
    requires Ready(e) && |data| <= SendRoom(e)
    ensures Ready(e')
  {
    Output(e.(snd := e.snd.(stream := e.snd.stream + data)))
  }

  /** utcp_read with bytes available. */
  function OnRead(e: Endpoint, len: nat): (e': Endpoint)
    requires Ready(e)
    ensures Ready(e')
  {
    var (r, bytes) := TakeUnread(e.rcv, len);
    var e1 := e.(rcv := r, hist := e.hist.(read := e.hist.read + bytes));
    if r.Free() >= MSS || |e.rcv.unread| == BUF_SIZE then Output(e1.(acknow := true)) else e1
  }

  /** The timer part of an expiration: back off and give up the RTT sample. */
  function Expire(t: Timers): Timers
    requires Sound(t.est) && t.shift < MAX_SHIFT
  {
    t.(shift := t.shift + 1, rexmt := BackedOff(t.est.rto, t.shift + 1), rtt := 0)
  }

  /** The state a timeout hands to congestion control: backed off, rolled back to una. */
  function RolledBack(e: Endpoint): (e': Endpoint)
    requires Ready(e) && e.tm.shift < MAX_SHIFT
    ensures Ready(e')
  {
    e.(tm := Expire(e.tm), snd := e.snd.(nxt := e.snd.una))
  }

  /** The TCPT_REXMT case of utcp_timers. */
  function RexmtExpired(e: Endpoint, fired: bool): (e': Endpoint)
    requires Ready(e) && e.tm.shift < MAX_SHIFT
    ensures Ready(e')
  {
    Output(Congest(RolledBack(e), Timeout(e.snd.nxt - e.snd.una), fired))
  }

  /** The TCPT_DELACK case of utcp_timers. */
  function DelackExpired(e: Endpoint): (e': Endpoint)
    requires Ready(e)
    ensures Ready(e')
  {
    Output(e.(delayed := false, acknow := true))
  }

  /** The tick before any timer is looked at: the RTT count of a timed segment. */
  function CountRtt(e: Endpoint): Endpoint {
    if e.tm.rtt > 0 then e.(tm := e.tm.(rtt := Wrap(e.tm.rtt + 1))) else e
  }

  function TickRexmt(e: Endpoint, fired: bool): (e': Endpoint)
    requires Ready(e) && (e.tm.rexmt == 1 ==> e.tm.shift < MAX_SHIFT)
    ensures Ready(e')
  {
    if e.tm.rexmt > 0 then
      var e1 := e.(tm := e.tm.(rexmt := e.tm.rexmt - 1));
      if e1.tm.rexmt == 0 then RexmtExpired(e1, fired) else e1
    else e
  }

  function TickDelack(e: Endpoint): (e': Endpoint)
    requires Ready(e)
    ensures Ready(e')
  {
    if e.tm.delack > 0 then
      var e1 := e.(tm := e.tm.(delack := e.tm.delack - 1));
      if e1.tm.delack == 0 then DelackExpired(e1) else e1
    else e
  }

  /** The per-TCB body of the slow timer. */
  function OnTick(e: Endpoint, fired: bool): (e': Endpoint)
    requires Ready(e) && (e.tm.rexmt == 1 ==> e.tm.shift < MAX_SHIFT)
    ensures Ready(e')
  {
    TickDelack(TickRexmt(CountRtt(e), fired))
  }
}
