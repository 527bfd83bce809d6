/** The send side as the code keeps it: 32-bit sequence numbers, ring counters and the send ring. */
module SendPath {
  import opened Serial
  import opened Ring
  import opened Congestion
  import opened Endpoint
  import opened EndpointInvariant

  /** buffered_data as utcp_output computes it from snd_nxt and send_buf_tail; iss is 0. */
  function Buffered(sndNxt: u32, tail: u32): u32 {
    var sentBytes := if SeqGt(sndNxt, 0) then Sub32(Sub32(sndNxt, 0), 1) else 0;
    if tail > sentBytes then tail - sentBytes else 0
  }

  /** The computed backlog is the true one exactly while snd_nxt, taken modulo 2^32, is fewer than
      2^31 - 1 bytes into the stream: half of every 2^32 bytes is handled wrongly. */
  lemma {:induction false} BufferedExactIff(nxt: int, tail: int)
    requires 0 <= nxt <= tail <= nxt + BUF_SIZE
    ensures Buffered(Wrap(1 + nxt), Wrap(tail)) == tail - nxt <==> nxt % TWO32 < STREAM_LIMIT
  {
    WrapShift(nxt, 1);
    WrapShift(nxt, tail - nxt);
    BufferedAt(Wrap(nxt), tail - nxt);
  }

  lemma {:induction false} BufferedAt(r: u32, waiting: u32)
    requires waiting <= BUF_SIZE
    ensures Buffered(Add32(r, 1), Add32(r, waiting)) == waiting <==> r < STREAM_LIMIT
  {
  }

  /** At the limit the whole history looks unsent again although nothing is waiting. */
  lemma {:induction false} BufferedFailsAtLimit()
    ensures Buffered(Wrap(1 + STREAM_LIMIT), STREAM_LIMIT) == STREAM_LIMIT
  {
  }

  /** buffered_data as utcp_retransmit_segment computes it from snd_una, with a plain comparison. */
  function Resendable(sndUna: u32, tail: u32): u32 {
    var sentBytes := if sndUna > 0 then Sub32(sndUna, 1) else 0;
    if tail > sentBytes then tail - sentBytes else 0
  }

  /** On retransmission the computed amount is the true one exactly if neither the sequence number of
      snd_una nor the buffered bytes behind it reach 2^32. */
  lemma {:induction false} ResendableExactIff(una: int, tail: int)
    requires 0 <= una <= tail <= una + BUF_SIZE
    ensures Resendable(Wrap(1 + una), Wrap(tail)) == tail - una
      <==> una % TWO32 != TWO32 - 1 && una % TWO32 + (tail - una) < TWO32
  {
    WrapShift(una, 1);
    WrapShift(una, tail - una);
    ResendableAt(Wrap(una), tail - una);
  }

  lemma {:induction false} ResendableAt(r: u32, held: u32)
    requires held <= BUF_SIZE
    ensures Resendable(Add32(r, 1), Add32(r, held)) == held <==> r != TWO32 - 1 && r + held < TWO32
  {
  }

  /** The first failure: a buffer straddling 2^32 bytes of stream has nothing to retransmit. */
  lemma {:induction false} ResendableFailsAtWrap()
    ensures Resendable(Wrap(1 + (TWO32 - 10)), Wrap(TWO32 + 10)) == 0
  {
  }

  /** The two serial tests on an arriving ACK accept exactly the numbers in (una, max]. */
  lemma {:induction false} AckTest(una: u32, max: u32, ack: u32)
    requires 1 <= una <= max < TWO31
    ensures SeqGt(ack, una) && SeqLeq(ack, max) <==> una < ack <= max
  {
  }

  /** Below 2^31 the serial test is the plain one. */
  lemma {:induction false} PlainOrder(a: u32, b: u32)
    requires a < TWO31 && b < TWO31
    ensures SeqGt(a, b) <==> a > b
  {
  }

  class SendSide {
    const sendBuf: array<u8>
    var una: u32
    var nxt: u32
    var max: u32
    var wnd: u32
    var head: u32
    var tail: u32
    /** The stream and the positions these fields represent. */
    ghost var view: Send

    ghost predicate Valid()
      reads this, sendBuf
    {
      && SenderOk(view)
      && una == 1 + view.una && nxt == 1 + view.nxt && max == 1 + view.max && wnd == view.wnd
      && head == view.una && tail == |view.stream|
      && Holds(sendBuf, view.una, view.stream[view.una..])
    }

    constructor (wnd: u32)
      ensures Valid() && fresh(sendBuf)
      ensures view == Send([], 0, 0, 0, wnd)
    {
      sendBuf := new u8[BUF_SIZE](_ => 0);
      una, nxt, max, this.wnd := 1, 1, 1, wnd;
      head, tail := 0, 0;
      view := Send([], 0, 0, 0, wnd);
    }

    /** The ring read of utcp_send_segment: the stream slice its sequence number names. */
    method Payload(num: u32, len: nat) returns (payload: Bytes)
      requires Valid() && view.una <= num - 1 && num - 1 + len <= |view.stream|
      ensures payload == view.stream[num - 1..num - 1 + len]
    {
      if len == 0 {
        return [];
      }
      var offset := Sub32(num, 1);
      payload := Slice(sendBuf, view.una, view.stream[view.una..], offset, num - 1 - view.una, len);
    }

    /** buffered_data in the output loop. */
    method Backlog() returns (buffered: u32)
      requires Valid()
      ensures buffered == |view.stream| - view.nxt
    {
      BufferedExactIff(view.nxt, |view.stream|);
      buffered := Buffered(nxt, tail);
    }

    /** The length utcp_retransmit_segment takes at snd_una. */
    method RetransmitLength() returns (len: nat)
      requires Valid()
      ensures len == Min(|view.stream| - view.una, MSS)
    {
      ResendableExactIff(view.una, |view.stream|);
      var buffered := Resendable(una, tail);
      len := Min(buffered, MSS);
    }

    method Inflight() returns (bytes: u32)
      requires Valid()
      ensures bytes == view.nxt - view.una
    {
      bytes := Sub32(nxt, una);
    }

    /** snd_nxt and snd_max after `len` payload bytes went out. */
    method AdvanceNxt(len: nat)
      requires Valid() && view.nxt + len <= |view.stream|
      modifies this`nxt, this`max, this`view
      ensures Valid() && view == AdvanceSend(old(view), len)
    {
      nxt := Add32(nxt, len);
      PlainOrder(nxt, max);
      if SeqGt(nxt, max) {
        max := nxt;
      }
      view := AdvanceSend(view, len);
    }

    /** Does this ACK number cover new data? */
    method Acceptable(ack: u32) returns (ok: bool)
      requires Valid()
      ensures ok <==> view.una < ack - 1 <= view.max
    {
      AckTest(una, max, ack);
      ok := SeqGt(ack, una) && SeqLeq(ack, max);
    }

    /** An acceptable ACK: release the acknowledged bytes from the ring and move the window. */
    method Slide(ack: u32, win: u32) returns (newly: u32)
      requires Valid() && view.una < ack - 1 <= view.max
      modifies this
      ensures Valid() && view == SlideSend(old(view), ack - 1, win)
      ensures newly == ack - 1 - old(view).una
    {
      newly := Sub32(ack, una);
      Released(ack - 1);
      PlainOrder(ack, nxt);
      hide Holds, SeqGt;
      una := ack;
      if SeqGt(una, nxt) {
        nxt := una;
      }
      head := Add32(head, newly);
      wnd := win;
      view := SlideSend(view, ack - 1, win);
    }

    /** Dropping acknowledged bytes from the front leaves the ring holding the rest of the stream. */
    lemma {:induction false} Released(ack: int)
      requires Valid() && view.una <= ack <= view.max
      ensures Holds(sendBuf, ack, view.stream[ack..])
    {
      var newly := ack - view.una;
      HoldsSuffix(sendBuf, view.una, view.stream[view.una..], newly);
      assert view.stream[view.una..][newly..] == view.stream[ack..];
    }

    method SetWindow(win: u32)
      requires Valid()
      modifies this`wnd, this`view
      ensures Valid() && view == old(view).(wnd := win)
    {
      wnd := win;
      view := view.(wnd := win);
    }

    /** The rollback of an expired retransmission timer; returns the flight size before it. */
    method RollBack() returns (flight: u32)
      requires Valid()
      modifies this`nxt, this`view
      ensures Valid() && view == old(view).(nxt := old(view).una)
      ensures flight == old(view).nxt - old(view).una
    {
      flight := Sub32(nxt, una);
      nxt := una;
      view := view.(nxt := view.una);
    }

    /** The free space utcp_send tests. */
    method Room() returns (room: u32)
      requires Valid()
      ensures room == BUF_SIZE - (|view.stream| - view.una)
    {
      room := Sub32(BUF_SIZE, Sub32(tail, head));
    }

    /** The ring write of utcp_send. */
    method Store(data: Bytes)
      requires Valid() && |data| <= BUF_SIZE - (|view.stream| - view.una)
      requires |view.stream| + |data| < STREAM_LIMIT
      modifies this`tail, this`view, sendBuf
      ensures Valid() && view == old(view).(stream := old(view).stream + data)
    {
      Append(sendBuf, view.una, view.stream[view.una..], tail, data);
      assert view.stream[view.una..] + data == (view.stream + data)[view.una..];
      tail := Add32(tail, |data|);
      view := view.(stream := view.stream + data);
    }
  }
}
