/** What a segment's arrival does to the receive side, byte by byte: which bytes are held afterwards,
    how far rcv_nxt goes, and what is reported. */
module Arrival {
  import opened Serial
  import opened Ring
  import opened Reassembly

  /** The byte held for stream position `p`, unread or queued. */
  function Held(r: Receive, p: int): Option<u8> {
    if r.ReadPos() <= p < r.nxt then Some(r.unread[p - r.ReadPos()])
    else if p >= r.nxt then At(r.ooo, p)
    else None
  }

  /** The bytes of a segment at `pos` that have not been received in order. */
  function New(r: Receive, pos: int, data: Bytes): int { pos + |data| - Max(pos, r.nxt) }

  /** Every outcome, by where the segment lies and whether its new bytes fit the shared space. */
  lemma {:induction false} ArriveOutcome(r: Receive, pos: int, data: Bytes)
    requires data != []
    ensures var (r', o) := Arrive(r, pos, data);
      && (o.Duplicate? <==> pos + |data| <= r.nxt)
      && (o.OutOfOrder? <==> pos > r.nxt)
      && (o.NoSpace? <==> pos <= r.nxt < pos + |data| && New(r, pos, data) > r.Free())
      && (o.Accepted? <==> pos <= r.nxt < pos + |data| && New(r, pos, data) <= r.Free())
      && (pos + |data| <= r.nxt || New(r, pos, data) > r.Free() ==> r' == r)
  {
  }

  /** An early segment is queued: coverage is overlaid, nothing else moves. */
  lemma {:induction false} EarlyQueued(r: Receive, pos: int, data: Bytes)
    requires Consistent(r) && data != [] && pos > r.nxt && |data| <= r.Free()
    ensures var (r', o) := Arrive(r, pos, data);
      && o == OutOfOrder && r'.nxt == r.nxt && r'.unread == r.unread
      && forall p :: At(r'.ooo, p) == Overlaid(r.ooo, pos, data, p)
  {
    assert data[0..] == data;
    InsertCoverage(r.ooo, r.nxt + 1, pos, data);
    hide Insert, At, Overlaid;
  }

  /** An in-order segment is accepted: rcv_nxt goes to the first position past the segment that is not
      queued, and a gap is reported filled exactly if the position right after it is. */
  lemma {:induction false} InOrderAccepted(r: Receive, pos: int, data: Bytes)
    requires Consistent(r) && pos <= r.nxt < pos + |data| && New(r, pos, data) <= r.Free()
    ensures var (r', o) := Arrive(r, pos, data); var end := pos + |data|;
      && r'.nxt >= end && At(r.ooo, r'.nxt) == None
      && (forall p :: end <= p < r'.nxt ==> At(r.ooo, p).Some?)
      && o == Accepted(At(r.ooo, end).Some?)
      && r'.ReadPos() == r.ReadPos()
      && forall p :: r.nxt <= p ==> Held(r', p) == if p < end then Some(data[p - pos]) else At(r.ooo, p)
  {
    var d := data[r.nxt - pos..];
    var r1 := Receive(r.nxt + |d|, r.unread + d, r.ooo);
    DrainExact(r1, r.nxt + 1);
    InOrderIs(r, pos, data);
    var r' := Drain(r1);
    hide Arrive, Drain, At, Consistent, Count;
    forall p | r.nxt <= p
      ensures Held(r', p) == if p < r1.nxt then Some(data[p - pos]) else At(r.ooo, p)
    {
      DrainHolds(r1, r', p);
    }
  }

  lemma {:induction false} InOrderIs(r: Receive, pos: int, data: Bytes)
    requires pos <= r.nxt < pos + |data| && New(r, pos, data) <= r.Free()
    ensures var d := data[r.nxt - pos..]; var r1 := Receive(r.nxt + |d|, r.unread + d, r.ooo);
      Arrive(r, pos, data) == (Drain(r1), Accepted(Drain(r1).nxt != r1.nxt))
  {
    hide Drain, Count;
    if pos == r.nxt {
      assert data[0..] == data;
    }
  }

  /** Draining moves bytes from the queue to the unread ones; what is held stays the same. */
  lemma {:induction false} DrainHolds(r: Receive, d: Receive, p: int)
    requires Drained(r, d) && p >= r.ReadPos()
    ensures Held(d, p) == Held(r, p)
  {
    hide At;
    if p < r.nxt {
      assert d.unread[p - r.ReadPos()] == r.unread[p - r.ReadPos()];
    } else if p < d.nxt {
      assert At(r.ooo, p) == Some(d.unread[p - d.ReadPos()]);
    } else {
      assert At(d.ooo, p) == At(r.ooo, p);
    }
  }

  /** The segment's new bytes are taken over; only an early segment may cost the part below it of an
      entry it cuts. */
  function Wanted(r: Receive, pos: int, data: Bytes, p: int): Option<u8> {
    if New(r, pos, data) > r.Free() then Held(r, p)
    else if Max(pos, r.nxt) <= p < pos + |data| then Some(data[p - pos])
    else if pos > r.nxt && p >= r.nxt && Straddled(r.ooo, pos, p) then None
    else Held(r, p)
  }

  /** Whatever arrives: every position from the read position on, afterwards. */
  lemma {:induction false} ArriveHolds(r: Receive, pos: int, data: Bytes, p: int)
    requires Consistent(r) && data != [] && p >= r.ReadPos()
    ensures Held(Arrive(r, pos, data).0, p) == Wanted(r, pos, data, p)
  {
    ArriveOutcome(r, pos, data);
    ArriveConsistent(r, pos, data);
    if pos > r.nxt {
      if |data| <= r.Free() {
        EarlyQueued(r, pos, data);
      }
    } else if pos + |data| > r.nxt && New(r, pos, data) <= r.Free() {
      InOrderAccepted(r, pos, data);
      var r' := Arrive(r, pos, data).0;
      hide Arrive, At, Consistent;
      if p < r.nxt {
        assert r'.unread[p - r.ReadPos()] == r.unread[p - r.ReadPos()];
      }
    }
  }

  /** A segment that arrives before the one it follows is not lost: once the missing bytes arrive, if
      both fit the space, everything up to its end has been received in order. */
  lemma {:induction false} GapFilled(r: Receive, early: Bytes, missing: Bytes)
    requires Consistent(r) && missing != [] && early != [] && |missing| + |early| <= r.Free()
    ensures var r1 := Arrive(r, r.nxt + |missing|, early).0; var (r2, o) := Arrive(r1, r.nxt, missing);
      o == Accepted(true) && r2.nxt >= r.nxt + |missing| + |early|
  {
    var pos := r.nxt + |missing|;
    EarlyQueued(r, pos, early);
    ArriveConsistent(r, pos, early);
    var r1 := Arrive(r, pos, early).0;
    EarlySpace(r, pos, early);
    hide Arrive, Consistent;
    InOrderAccepted(r1, r.nxt, missing);
    var r2 := Arrive(r1, r.nxt, missing).0;
    assert At(r1.ooo, pos) == Overlaid(r.ooo, pos, early, pos);
    assert At(r1.ooo, r2.nxt) == Overlaid(r.ooo, pos, early, r2.nxt);
  }

  lemma {:induction false} EarlySpace(r: Receive, pos: int, data: Bytes)
    requires Consistent(r) && data != [] && pos > r.nxt && |data| <= r.Free()
    ensures Arrive(r, pos, data).0.Free() >= r.Free() - |data|
  {
    assert data[0..] == data;
    InsertSorted(r.ooo, r.nxt + 1, pos, data);
  }

  /** A read hands over as many bytes as asked for and available, from the front. */
  lemma {:induction false} TakeExact(r: Receive, len: nat)
    requires Consistent(r)
    ensures var (r', b) := TakeUnread(r, len);
      && |b| == Min(len, |r.unread|) && b + r'.unread == r.unread
      && r'.nxt == r.nxt && r'.ooo == r.ooo && r'.ReadPos() == r.ReadPos() + |b|
  {
  }
}
