/** The receive side as the code keeps it: 32-bit counters, a ring, and a queue of wire-numbered
    entries, proved to follow the position-based model of module Reassembly. */
module ReceivePath {
  import opened Serial
  import opened Ring
  import opened Reassembly

  /** A queue entry as stored: a wire sequence number and its bytes. */
  datatype WireEntry = WireEntry(num: u32, data: Bytes)

  /** Wire number of stream position `p` when the peer's initial sequence number is `irs`. */
  function Number(irs: u32, p: int): u32 { Wrap(irs + 1 + p) }

  /** SEQ_* on two numbers of one stream order their positions when those are within 2^31. */
  lemma {:induction false} NumberOrder(irs: u32, p: int, q: int)
    requires -TWO31 <= p - q < TWO31
    ensures SeqLt(Number(irs, p), Number(irs, q)) <==> p < q
    ensures SeqLeq(Number(irs, p), Number(irs, q)) <==> p <= q
    ensures SeqGt(Number(irs, p), Number(irs, q)) <==> p > q
    ensures Number(irs, p) == Number(irs, q) <==> p == q
    ensures p >= q ==> Sub32(Number(irs, p), Number(irs, q)) == p - q
  {
    SerialOrder(irs + 1 + p, irs + 1 + q);
  }

  lemma {:induction false} NumberShift(irs: u32, p: int, d: u32)
    ensures Add32(Number(irs, p), d) == Number(irs, p + d)
  {
    WrapShift(irs + 1 + p, d);
  }

  /** The stored queue is the position-based queue, entry by entry. */
  ghost predicate Encodes(irs: u32, stored: seq<WireEntry>, q: Queue) {
    && |stored| == |q|
    && forall i :: 0 <= i < |q| ==> stored[i].num == Number(irs, q[i].pos) && stored[i].data == q[i].data
  }

  /** Every entry lies within 2^31 past `base`, the reach of serial comparison. */
  ghost predicate InReach(q: Queue, base: int) {
    forall i :: 0 <= i < |q| ==> base < q[i].pos && q[i].End() < base + TWO31
  }

  /** Insertion at the slot the walk finds: entries before it stay, those from it on are trimmed. */
  lemma {:induction false} InsertAtSlot(q: Queue, i: nat, pos: int, data: Bytes)
    requires i <= |q| && (forall k :: 0 <= k < i ==> q[k].End() <= pos)
    requires i < |q| ==> q[i].End() > pos
    ensures Insert(q, pos, data) == q[..i] + ([Entry(pos, data)] + TrimFront(q[i..], pos + |data|))
  {
    if i == 0 {
      assert q[0..] == q;
    } else {
      var q', e := q[1..], q[0];
      forall k | 0 <= k < i - 1
        ensures q'[k].End() <= pos
      {
        assert q'[k] == q[k + 1];
      }
      InsertAtSlot(q', i - 1, pos, data);
      assert q'[i - 1..] == q[i..];
      var x := [Entry(pos, data)] + TrimFront(q[i..], pos + |data|);
      assert Insert(q, pos, data) == [e] + (q'[..i - 1] + x);
      hide *;
      assert [e] + q'[..i - 1] == q[..i];
      assert [e] + (q'[..i - 1] + x) == ([e] + q'[..i - 1]) + x;
    }
  }

  lemma {:induction false} CountAtSlot(a: Queue, e: Entry, t: Queue)
    ensures Count(a + ([e] + t)) == Count(a) + |e.data| + Count(t)
  {
    if a == [] {
      assert a + ([e] + t) == [e] + t;
      assert ([e] + t)[1..] == t;
    } else {
      assert (a + ([e] + t))[1..] == a[1..] + ([e] + t);
      CountAtSlot(a[1..], e, t);
    }
  }

  lemma {:induction false} CountSplit(q: Queue, i: nat)
    requires i <= |q|
    ensures Count(q) == Count(q[..i]) + Count(q[i..])
  {
    if i == 0 {
      assert q[0..] == q;
    } else {
      CountSplit(q[1..], i - 1);
      assert q[1..][i - 1..] == q[i..];
      assert q[..i][1..] == q[1..][..i - 1];
    }
  }

  lemma {:induction false} TrimFrontMembers(q: Queue, base: int, end: int)
    requires InReach(q, base) && base < end < base + TWO31
    ensures InReach(TrimFront(q, end), base)
  {
    if q != [] && q[0].pos < end {
      if q[0].End() <= end {
        TrimFrontMembers(q[1..], base, end);
      }
    }
  }

  lemma {:induction false} InsertReach(q: Queue, base: int, pos: int, data: Bytes)
    requires InReach(q, base) && base < pos && pos + |data| < base + TWO31 && data != []
    ensures InReach(Insert(q, pos, data), base)
  {
    if q != [] && q[0].End() <= pos {
      InsertReach(q[1..], base, pos, data);
    } else {
      TrimFrontMembers(q, base, pos + |data|);
    }
  }

  /** First loop of insert_ooo_segment: walk past the entries that end at or before `num`. */
  method FindSlot(stored: seq<WireEntry>, num: u32, ghost irs: u32, ghost q: Queue, ghost base: int, ghost pos: int)
    returns (i: nat)
    requires Encodes(irs, stored, q) && InReach(q, base)
    requires num == Number(irs, pos) && base < pos < base + TWO31
    ensures i <= |stored|
    ensures forall k :: 0 <= k < i ==> q[k].End() <= pos
    ensures i < |q| ==> q[i].End() > pos
  {
    i := 0;
    while i < |stored|
      invariant i <= |stored|
      invariant forall k :: 0 <= k < i ==> q[k].End() <= pos
    {
      NumberShift(irs, q[i].pos, |q[i].data|);
      NumberOrder(irs, q[i].End(), pos);
      if !SeqLeq(Add32(stored[i].num, |stored[i].data|), num) {
        break;
      }
      i := i + 1;
    }
    if i > 0 {
      // The start-trim block of the source never runs: the previous entry ends at or before `num`.
      NumberShift(irs, q[i - 1].pos, |q[i - 1].data|);
      NumberOrder(irs, q[i - 1].End(), pos);
      assert !SeqGt(Add32(stored[i - 1].num, |stored[i - 1].data|), num);
    }
  }

  /** The partial-overlap case: cut the bytes below `end` off the first entry. */
  method TrimEntry(stored: seq<WireEntry>, endNum: u32, ghost irs: u32, ghost q: Queue, ghost end: int)
    returns (rest: seq<WireEntry>, overlap: u32)
    requires Encodes(irs, stored, q) && q != [] && endNum == Number(irs, end)
    requires q[0].pos < end < q[0].End() && end - q[0].pos < TWO31
    ensures Encodes(irs, rest, TrimFront(q, end))
    ensures overlap + Count(TrimFront(q, end)) == Count(q)
  {
    overlap := Sub32(endNum, stored[0].num);
    NumberOrder(irs, end, q[0].pos);
    NumberShift(irs, q[0].pos, overlap);
    rest := [WireEntry(Add32(stored[0].num, overlap), stored[0].data[overlap..])] + stored[1..];
    assert TrimFront(q, end)[1..] == q[1..];
  }

  /** Second loop of insert_ooo_segment: drop the leading entries the segment covers and trim the
      front of one it overlaps, giving back their bytes. */
  method Absorb(stored: seq<WireEntry>, bytes: u32, endNum: u32,
                ghost irs: u32, ghost q: Queue, ghost base: int, ghost end: int)
    returns (rest: seq<WireEntry>, kept: u32)
    requires Encodes(irs, stored, q) && InReach(q, base) && bytes >= Count(q)
    requires base < end < base + TWO31 && endNum == Number(irs, end)
    ensures Encodes(irs, rest, TrimFront(q, end))
    ensures kept == bytes - Count(q) + Count(TrimFront(q, end))
  {
    rest, kept := stored, bytes;
    ghost var t := q;
    while rest != []
      invariant Encodes(irs, rest, t) && InReach(t, base)
      invariant TrimFront(q, end) == TrimFront(t, end)
      invariant kept == bytes - Count(q) + Count(t)
    {
      NumberOrder(irs, t[0].pos, end);
      if !SeqLt(rest[0].num, endNum) {
        break;
      }
      NumberShift(irs, t[0].pos, |t[0].data|);
      NumberOrder(irs, t[0].End(), end);
      if SeqLeq(Add32(rest[0].num, |rest[0].data|), endNum) {
        kept := Sub32(kept, |rest[0].data|);
        rest, t := rest[1..], t[1..];
      } else {
        var overlap;
        rest, overlap := TrimEntry(rest, endNum, irs, t, end);
        kept := Sub32(kept, overlap);
        return;
      }
    }
  }

  /** Linking a new entry in at index `i` on both sides keeps the encoding. */
  lemma {:induction false} EncodesSplice(irs: u32, stored: seq<WireEntry>, q: Queue, i: nat, w: WireEntry, e: Entry,
                      rest: seq<WireEntry>, t: Queue)
    requires Encodes(irs, stored, q) && Encodes(irs, rest, t) && i <= |q|
    requires w.num == Number(irs, e.pos) && w.data == e.data
    ensures Encodes(irs, stored[..i] + ([w] + rest), q[..i] + ([e] + t))
  {
  }

  /** insert_ooo_segment after its space test, on the stored queue. */
  method InsertStored(stored: seq<WireEntry>, num: u32, data: Bytes, bytes: u32,
                      ghost irs: u32, ghost q: Queue, ghost base: int, ghost pos: int)
    returns (stored': seq<WireEntry>, bytes': u32)
    requires Encodes(irs, stored, q) && InReach(q, base) && bytes == Count(q)
    requires num == Number(irs, pos) && base < pos && pos + |data| < base + TWO31
    requires Count(Insert(q, pos, data)) < TWO31
    ensures Encodes(irs, stored', Insert(q, pos, data))
    ensures bytes' == Count(Insert(q, pos, data))
  {
    hide Count, Insert, TrimFront, Wrap;
    var i := FindSlot(stored, num, irs, q, base, pos);
    ghost var b, t := q[i..], TrimFront(q[i..], pos + |data|);
    CountSplit(q, i);
    InsertAtSlot(q, i, pos, data);
    CountAtSlot(q[..i], Entry(pos, data), t);
    NumberShift(irs, pos, |data|);
    var rest, kept := Absorb(stored[i..], bytes, Add32(num, |data|), irs, b, base, pos + |data|);
    EncodesSplice(irs, stored, q, i, WireEntry(num, data), Entry(pos, data), rest, t);
    stored' := stored[..i] + ([WireEntry(num, data)] + rest);
    bytes' := Add32(kept, |data|);
  }

  /** Where an entry lies relative to rcvNxt: the three tests of the drain loop. */
  datatype Place = Below | Overlapping | AtNext | Gap

  method Classify(e: WireEntry, next: u32, ghost irs: u32, ghost a: Entry, ghost nxt: int) returns (place: Place)
    requires e.num == Number(irs, a.pos) && e.data == a.data && next == Number(irs, nxt)
    requires -TWO31 <= a.pos - nxt && a.End() - nxt < TWO31
    ensures place.Below? <==> a.End() <= nxt
    ensures place.Overlapping? <==> a.pos < nxt < a.End()
    ensures place.AtNext? <==> a.pos == nxt < a.End()
    ensures place.Gap? <==> nxt < a.pos && nxt < a.End()
  {
    NumberShift(irs, a.pos, |a.data|);
    NumberOrder(irs, a.End(), nxt);
    NumberOrder(irs, a.pos, nxt);
    if SeqLeq(Add32(e.num, |e.data|), next) {
      return Below;
    }
    if SeqLt(e.num, next) {
      return Overlapping;
    }
    if e.num != next {
      return Gap;
    }
    return AtNext;
  }

  class ReceiveSide {
    const recvBuf: array<u8>
    const irs: u32
    var head: u32
    var tail: u32
    var rcvNxt: u32
    var ooo: seq<WireEntry>
    var oooBytes: u32
    /** The position-based state these fields represent. */
    ghost var view: Receive

    ghost predicate Counters()
      reads this, recvBuf
    {
      && Holds(recvBuf, view.ReadPos(), view.unread)
      && head == Wrap(view.ReadPos())
      && tail == Wrap(view.nxt)
      && rcvNxt == Number(irs, view.nxt)
      && Encodes(irs, ooo, view.ooo)
      && oooBytes == Count(view.ooo)
      && view.Free() >= 0
    }

    ghost predicate Valid()
      reads this, recvBuf
    {
      && Counters()
      && Consistent(view)
      && InReach(view.ooo, view.nxt)
    }

    /** An established connection that has received nothing yet. */
    constructor (irs: u32)
      ensures Valid() && fresh(recvBuf) && this.irs == irs
      ensures view == Receive(0, [], [])
    {
      recvBuf := new u8[BUF_SIZE](_ => 0);
      this.irs := irs;
      head, tail, oooBytes := 0, 0, 0;
      rcvNxt := Number(irs, 0);
      ooo := [];
      view := Receive(0, [], []);
    }

    /** RECV_BUF_SIZE - (tail - head) - ooo_bytes in 32-bit arithmetic. */
    method FreeSpace() returns (free: u32)
      requires Counters()
      ensures free == view.Free()
    {
      SerialOrder(view.nxt, view.ReadPos());
      free := Sub32(Sub32(BUF_SIZE, Sub32(tail, head)), oooBytes);
    }

    /** insert_ooo_segment. `pos` is the stream position the wire number `num` stands for. */
    method InsertOoo(num: u32, data: Bytes, ghost pos: int)
      requires Valid() && data != []
      requires num == Number(irs, pos)
      requires view.nxt < pos && pos + |data| < view.nxt + TWO31
      modifies this
      ensures Valid()
      ensures view == if |data| > old(view).Free() then old(view)
                      else old(view).(ooo := Insert(old(view).ooo, pos, data))
    {
      var available := FreeSpace();
      if |data| > available {
        return;
      }
      InsertSorted(view.ooo, view.nxt + 1, pos, data);
      InsertReach(view.ooo, view.nxt, pos, data);
      ooo, oooBytes := InsertStored(ooo, num, data, oooBytes, irs, view.ooo, view.nxt, pos);
      view := view.(ooo := Insert(view.ooo, pos, data));
    }

    /** The state inside the drain loop; `base` was rcvNxt before the in-order segment. */
    ghost predicate Draining(base: int)
      reads this, recvBuf
    {
      && Counters()
      && SortedFrom(view.ooo, base + 1) && InReach(view.ooo, base)
      && base <= view.nxt < base + TWO31
    }

    /** Case 1 of the drain loop: the head entry is wholly below rcvNxt. */
    method DropHead(ghost base: int)
      requires Draining(base) && |ooo| > 0 && view.ooo[0].End() <= view.nxt
      modifies this
      ensures Draining(base) && |ooo| < |old(ooo)|
      ensures Drain(view) == Drain(old(view))
    {
      DropStep(view);
      SortedWeaken(view.ooo[1..], view.ooo[0].End(), base + 1);
      oooBytes := Sub32(oooBytes, |ooo[0].data|);
      ooo := ooo[1..];
      view := view.(ooo := view.ooo[1..]);
    }

    /** The queue inside the drain loop, on positions. */
    ghost predicate DrainingQueue(r: Receive, base: int) {
      SortedFrom(r.ooo, base + 1) && InReach(r.ooo, base) && base <= r.nxt < base + TWO31 && r.Free() >= 0
    }

    lemma {:induction false} TrimmedKeeps(r: Receive, base: int)
      requires DrainingQueue(r, base) && r.ooo != [] && r.ooo[0].pos < r.nxt < r.ooo[0].End()
      ensures var r' := r.(ooo := TrimFront(r.ooo, r.nxt));
        && DrainingQueue(r', base) && Drain(r') == Drain(r)
        && r'.ooo != [] && |r'.ooo| == |r.ooo| && r'.ooo[0].pos == r.nxt
    {
      TrimStep(r);
      var q := TrimFront(r.ooo, r.nxt);
      assert q[1..] == r.ooo[1..];
    }

    /** Case 2 of the drain loop: the head entry starts below rcvNxt and reaches past it. */
    method TrimHead(ghost base: int)
      requires Draining(base) && |ooo| > 0 && view.ooo[0].pos < view.nxt < view.ooo[0].End()
      modifies this
      ensures Draining(base) && |ooo| == |old(ooo)| && view.ooo[0].pos == view.nxt
      ensures Drain(view) == Drain(old(view))
    {
      ghost var q := TrimFront(view.ooo, view.nxt);
      TrimmedKeeps(view, base);
      var overlap;
      ooo, overlap := TrimEntry(ooo, rcvNxt, irs, view.ooo, view.nxt);
      hide Drain, SortedFrom, Count, InReach, TrimFront, Holds, Wrap;
      oooBytes := Sub32(oooBytes, overlap);
      view := view.(ooo := q);
    }

    /** The receive side after its head entry has moved to the unread bytes. */
    ghost function Consumed(r: Receive): Receive
      requires r.ooo != []
    {
      Receive(r.nxt + |r.ooo[0].data|, r.unread + r.ooo[0].data, r.ooo[1..])
    }

    lemma {:induction false} ConsumedKeeps(r: Receive, base: int)
      requires DrainingQueue(r, base) && r.ooo != [] && r.ooo[0].pos == r.nxt
      ensures DrainingQueue(Consumed(r), base) && Drain(Consumed(r)) == Drain(r)
      ensures |r.ooo[0].data| <= BUF_SIZE - |r.unread| && |r.ooo[0].data| <= Count(r.ooo)
      ensures Count(Consumed(r).ooo) == Count(r.ooo) - |r.ooo[0].data|
      ensures Consumed(r).ReadPos() == r.ReadPos()
    {
      ConsumeStep(r);
      SortedWeaken(r.ooo[1..], r.ooo[0].End(), base + 1);
    }

    /** Case 3 of the drain loop: the head entry starts at rcvNxt and moves to the ring. */
    method ConsumeHead(ghost base: int)
      requires Draining(base) && |ooo| > 0 && view.ooo[0].pos == view.nxt
      modifies this, recvBuf
      ensures Draining(base) && |ooo| < |old(ooo)|
      ensures Drain(view) == Drain(old(view))
    {
      var data := ooo[0].data;
      SerialOrder(view.nxt, view.ReadPos());
      var free := Sub32(BUF_SIZE, Sub32(tail, head));
      ConsumedKeeps(view, base);
      hide Drain, SortedFrom, Count, InReach, Wrap;
      // The "recv_buf full during drain" branch of the source is unreachable.
      assert |data| <= free;
      Append(recvBuf, view.ReadPos(), view.unread, tail, data);
      hide Holds;
      WrapShift(view.nxt, |data|);
      NumberShift(irs, view.nxt, |data|);
      tail := Add32(tail, |data|);
      rcvNxt := Add32(rcvNxt, |data|);
      oooBytes := Sub32(oooBytes, |data|);
      ooo := ooo[1..];
      view := Consumed(view);
    }

    /** One pass of the drain loop; `more` is false where the source breaks out. */
    method DrainHead(ghost base: int) returns (more: bool)
      requires Draining(base) && |ooo| > 0
      modifies this, recvBuf
      ensures Draining(base) && Drain(view) == Drain(old(view))
      ensures if more then |ooo| < |old(ooo)| else view == Drain(view)
    {
      var place := Classify(ooo[0], rcvNxt, irs, view.ooo[0], view.nxt);
      if place == Below {
        DropHead(base);
        return true;
      }
      if place == Overlapping {
        TrimHead(base);
      }
      if place == Gap {
        return false;
      }
      ConsumeHead(base);
      return true;
    }

    /** drain_ooo_queue. */
    method DrainOoo(ghost base: int)
      requires Draining(base)
      modifies this, recvBuf
      ensures Valid()
      ensures view == Drain(old(view))
    {
      ghost var final := Drain(view);
      DrainExact(view, base + 1);
      while |ooo| > 0
        invariant Draining(base) && Drain(view) == final
        decreases |ooo|
      {
        var more := DrainHead(base);
        if !more {
          break;
        }
      }
      DrainReach(view, base);
    }

    lemma {:induction false} DropStep(r: Receive)
      requires r.ooo != [] && r.ooo[0].End() <= r.nxt
      ensures Drain(r) == Drain(r.(ooo := r.ooo[1..]))
    {
    }

    lemma {:induction false} ConsumeStep(r: Receive)
      requires r.ooo != [] && r.ooo[0].pos == r.nxt && r.ooo[0].data != []
      requires |r.ooo[0].data| <= BUF_SIZE - |r.unread|
      ensures var d := r.ooo[0].data;
        Drain(r) == Drain(Receive(r.nxt + |d|, r.unread + d, r.ooo[1..]))
    {
      assert r.ooo[0].data[0..] == r.ooo[0].data;
    }

    lemma {:induction false} TrimStep(r: Receive)
      requires r.ooo != [] && r.ooo[0].pos < r.nxt < r.ooo[0].End()
      ensures var news := r.ooo[0].data[r.nxt - r.ooo[0].pos..];
        Drain(r.(ooo := [Entry(r.nxt, news)] + r.ooo[1..])) == Drain(r)
    {
      var news := r.ooo[0].data[r.nxt - r.ooo[0].pos..];
      var q := [Entry(r.nxt, news)] + r.ooo[1..];
      assert q[1..] == r.ooo[1..] && news[0..] == news;
    }

    /** What remains after a drain lies strictly past rcvNxt, still within reach. */
    lemma {:induction false} DrainReach(d: Receive, base: int)
      requires Consistent(d) && InReach(d.ooo, base) && base <= d.nxt
      ensures InReach(d.ooo, d.nxt)
    {
      SortedMembers(d.ooo, d.nxt + 1);
    }

    /** The receive half of handle_received_data. */
    method Arrives(num: u32, data: Bytes) returns (outcome: Outcome)
      requires Valid() && data != []
      requires Position(num) + |data| < view.nxt + TWO31
      modifies this, recvBuf
      ensures Valid()
      ensures (view, outcome) == Arrive(old(view), old(Position(num)), data)
    {
      hide Drain, SortedFrom, Count, InReach, Holds, Encodes, Insert;
      ghost var pos := Position(num);
      WrapUnwrap(irs + 1 + view.nxt, num);
      assert num == Number(irs, pos);
      NumberOrder(irs, pos, view.nxt);
      var num', data' := num, data;
      ghost var pos' := pos;
      if SeqLt(num, rcvNxt) {
        var dup := Sub32(rcvNxt, num);
        if pos == view.nxt - TWO31 {
          assert dup == TWO31 by { WrapDiff(irs + 1 + view.nxt, irs + 1 + pos); }
        } else {
          NumberOrder(irs, view.nxt, pos);
        }
        if dup >= |data| {
          return Duplicate;
        }
        NumberShift(irs, pos, dup);
        num', data', pos' := Add32(num, dup), data[dup..], pos + dup;
      } else {
        assert data[0..] == data;
      }
      assert Arrive(view, pos, data) == ArriveNew(view, pos', data');
      hide Arrive, Wrap;
      NumberOrder(irs, pos', view.nxt);
      if num' == rcvNxt {
        outcome := AcceptInOrder(data');
      } else {
        InsertOoo(num', data', pos');
        outcome := OutOfOrder;
      }
    }

    /** The stream position an arriving wire number stands for. */
    ghost function Position(num: u32): int
      reads this
    {
      Unwrap(irs + 1 + view.nxt, num) - irs - 1
    }

    /** An in-order segment goes to the ring and advances rcvNxt. */
    method StoreInOrder(data: Bytes)
      requires Counters() && |data| <= view.Free()
      modifies this`tail, this`rcvNxt, this`view, recvBuf
      ensures Counters() && view == Receive(old(view).nxt + |data|, old(view).unread + data, old(view).ooo)
    {
      hide Count, Encodes, Wrap;
      Append(recvBuf, view.ReadPos(), view.unread, tail, data);
      hide Holds;
      WrapShift(view.nxt, |data|);
      NumberShift(irs, view.nxt, |data|);
      tail := Add32(tail, |data|);
      rcvNxt := Add32(rcvNxt, |data|);
      view := Receive(view.nxt + |data|, view.unread + data, view.ooo);
    }

    /** The in-order branch: store, advance, drain. */
    method AcceptInOrder(data: Bytes) returns (outcome: Outcome)
      requires Valid() && data != [] && |data| < TWO31
      modifies this, recvBuf
      ensures Valid()
      ensures (view, outcome) == ArriveNew(old(view), old(view).nxt, data)
    {
      hide Drain, SortedFrom, Count, InReach, Holds, Encodes, Wrap;
      var free := FreeSpace();
      if |data| > free {
        return NoSpace;
      }
      ghost var base := view.nxt;
      StoreInOrder(data);
      var before := rcvNxt;
      ghost var mid := view;
      DrainOoo(base);
      DrainAdvance(mid, base);
      NumberOrder(irs, view.nxt, mid.nxt);
      outcome := Accepted(rcvNxt != before);
    }

    /** A drain moves rcvNxt by less than 2^31, so the code's inequality test sees every advance. */
    lemma {:induction false} DrainAdvance(r: Receive, base: int)
      requires SortedFrom(r.ooo, base + 1) && InReach(r.ooo, base) && r.Free() >= 0
      requires base <= r.nxt < base + TWO31
      ensures 0 <= Drain(r).nxt - r.nxt < TWO31
    {
      DrainExact(r, base + 1);
      var d := Drain(r);
      assert |d.unread| <= BUF_SIZE;
    }

    /** utcp_read: copies out at most `len` unread bytes and advances the read counter. */
    method Take(len: nat) returns (bytes: Bytes)
      requires Valid()
      modifies this
      ensures Valid()
      ensures (view, bytes) == TakeUnread(old(view), len)
    {
      SerialOrder(view.nxt, view.ReadPos());
      var avail := Sub32(tail, head);
      var n := Min(len, avail);
      bytes := Slice(recvBuf, view.ReadPos(), view.unread, head, 0, n);
      HoldsSuffix(recvBuf, view.ReadPos(), view.unread, n);
      WrapShift(view.ReadPos(), n);
      head := Add32(head, n);
      view := view.(unread := view.unread[n..]);
    }
  }

  lemma {:induction false} SortedMembers(q: Queue, lo: int)
    requires SortedFrom(q, lo)
    ensures forall i :: 0 <= i < |q| ==> q[i].pos >= lo && q[i].data != []
  {
    if q != [] {
      SortedMembers(q[1..], q[0].End());
    }
  }
}
