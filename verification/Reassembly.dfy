/** The receive side on stream positions: the out-of-order queue, its draining, segment arrival. */
module Reassembly {
  import opened Serial
  import opened Ring

  datatype Option<+T> = None | Some(value: T)

  /** One tcpq_entry: `data` starts at stream position `pos`. */
  datatype Entry = Entry(pos: int, data: Bytes) {
    function End(): int { pos + |data| }

    predicate Has(p: int) { pos <= p < End() }
  }

  type Queue = seq<Entry>

  /** Ascending, pairwise disjoint, without empty entries, and starting at `lo` or later. */
  predicate SortedFrom(q: Queue, lo: int) {
    q == [] || (lo <= q[0].pos && q[0].data != [] && SortedFrom(q[1..], q[0].End()))
  }

  /** What ooo_bytes counts. */
  function Count(q: Queue): nat {
    if q == [] then 0 else |q[0].data| + Count(q[1..])
  }

  /** The byte the queue holds for stream position `p`, if any: its coverage. */
  function At(q: Queue, p: int): Option<u8> {
    if q == [] then None
    else if q[0].Has(p) then Some(q[0].data[p - q[0].pos])
    else At(q[1..], p)
  }

  /** Removes every byte below `end` from the front of the queue. */
  function TrimFront(q: Queue, end: int): Queue {
    if q == [] || q[0].pos >= end then q
    else if q[0].End() <= end then TrimFront(q[1..], end)
    else [Entry(end, q[0].data[end - q[0].pos..])] + q[1..]
  }

  /** insert_ooo_segment, after its space test. */
  function Insert(q: Queue, pos: int, data: Bytes): Queue {
    if q != [] && q[0].End() <= pos then [q[0]] + Insert(q[1..], pos, data)
    else [Entry(pos, data)] + TrimFront(q, pos + |data|)
  }

  /** Position `p` lies below `pos` in an entry that reaches past `pos`. */
  predicate Straddled(q: Queue, pos: int, p: int) {
    q != [] && ((q[0].Has(p) && p < pos < q[0].End()) || Straddled(q[1..], pos, p))
  }

  // ---------- coverage ----------

  lemma {:induction false} SortedWeaken(q: Queue, lo: int, lo': int)
    requires SortedFrom(q, lo) && lo' <= lo
    ensures SortedFrom(q, lo')
  {
  }

  /** Nothing is covered below the start of a sorted queue. */
  lemma {:induction false} NothingBelow(q: Queue, lo: int, p: int)
    requires SortedFrom(q, lo) && p < lo
    ensures At(q, p) == None
    ensures forall pos :: !Straddled(q, pos, p)
  {
    if q != [] {
      NothingBelow(q[1..], q[0].End(), p);
    }
  }

  function Range(lo: int, hi: int): (s: set<int>)
    ensures forall p :: p in s <==> lo <= p < hi
    ensures lo <= hi ==> |s| == hi - lo
    decreases hi - lo
  {
    if lo >= hi then {} else
      var rest := Range(lo + 1, hi);
      assert lo !in rest;
      {lo} + rest
  }

  /** The positions the queue's entries span. */
  function Positions(q: Queue): set<int> {
    if q == [] then {} else Range(q[0].pos, q[0].End()) + Positions(q[1..])
  }

  lemma {:induction false} PositionsCovered(q: Queue, p: int)
    ensures p in Positions(q) <==> At(q, p).Some?
  {
    if q != [] {
      PositionsCovered(q[1..], p);
    }
  }

  /** ooo_bytes is exactly the number of covered positions. */
  lemma {:induction false} CountIsCoverage(q: Queue, lo: int)
    requires SortedFrom(q, lo)
    ensures |Positions(q)| == Count(q)
  {
    if q != [] {
      CountIsCoverage(q[1..], q[0].End());
      var s, t := Range(q[0].pos, q[0].End()), Positions(q[1..]);
      forall p | p in t
        ensures p !in s
      {
        PositionsCovered(q[1..], p);
        if p < q[0].End() {
          NothingBelow(q[1..], q[0].End(), p);
        }
      }
      assert |s + t| == |s| + |t|;
    }
  }

  /** Disjoint entries inside an interval hold no more bytes than the interval is long. */
  lemma {:induction false} CountBound(q: Queue, lo: int, hi: int)
    requires SortedFrom(q, lo) && lo <= hi
    requires forall p :: At(q, p).Some? ==> p < hi
    ensures Count(q) <= hi - lo
  {
    if q != [] {
      var e, t := q[0], q[1..];
      assert At(q, e.End() - 1).Some?;
      forall p | At(t, p).Some?
        ensures p < hi
      {
        assert At(q, p).Some?;
      }
      CountBound(t, e.End(), hi);
    }
  }

  // ---------- insertion ----------

  /** TrimFront keeps the order and leaves exactly the coverage at or past `end`. */
  lemma {:induction false} TrimFrontExact(q: Queue, lo: int, end: int)
    requires SortedFrom(q, lo)
    ensures SortedFrom(TrimFront(q, end), Max(lo, end))
    ensures Count(TrimFront(q, end)) <= Count(q)
    ensures forall p :: At(TrimFront(q, end), p) == if p < end then None else At(q, p)
  {
    if q == [] {
    } else if q[0].pos >= end {
      forall p | p < end
        ensures At(q, p) == None
      {
        NothingBelow(q, end, p);
      }
    } else if q[0].End() <= end {
      TrimFrontExact(q[1..], q[0].End(), end);
    } else {
      var r := TrimFront(q, end);
      assert r[1..] == q[1..];
      forall p
        ensures At(r, p) == if p < end then None else At(q, p)
      {
        if p < end {
          NothingBelow(q[1..], q[0].End(), p);
        }
      }
    }
  }

  /** Each insertion keeps the queue sorted and disjoint and adds at most the segment's bytes. */
  lemma {:induction false} InsertSorted(q: Queue, lo: int, pos: int, data: Bytes)
    requires SortedFrom(q, lo) && data != [] && lo <= pos
    ensures SortedFrom(Insert(q, pos, data), lo)
    ensures Count(Insert(q, pos, data)) <= Count(q) + |data|
  {
    var r := Insert(q, pos, data);
    if q != [] && q[0].End() <= pos {
      InsertSorted(q[1..], q[0].End(), pos, data);
      assert r[1..] == Insert(q[1..], pos, data);
    } else {
      TrimFrontExact(q, lo, pos + |data|);
      assert r[1..] == TrimFront(q, pos + |data|);
    }
  }

  /** Reassembly exactness: the coverage after an insertion is the segment, plus the old coverage
      without the part below `pos` of an entry straddling `pos`. */
  function Overlaid(q: Queue, pos: int, data: Bytes, p: int): Option<u8> {
    if pos <= p < pos + |data| then Some(data[p - pos])
    else if Straddled(q, pos, p) then None
    else At(q, p)
  }

  lemma {:induction false} InsertCoverage(q: Queue, lo: int, pos: int, data: Bytes)
    requires SortedFrom(q, lo) && data != []
    ensures forall p :: At(Insert(q, pos, data), p) == Overlaid(q, pos, data, p)
  {
    var r := Insert(q, pos, data);
    if q != [] && q[0].End() <= pos {
      var t := q[1..];
      InsertCoverage(t, q[0].End(), pos, data);
      assert r[1..] == Insert(t, pos, data);
      forall p
        ensures At(r, p) == Overlaid(q, pos, data, p)
      {
        assert r[0] == q[0];
        if q[0].Has(p) {
          NothingBelow(t, q[0].End(), p);
          assert !Straddled(t, pos, p);
          assert !Straddled(q, pos, p);
        } else {
          assert At(r[1..], p) == Overlaid(t, pos, data, p);
        }
      }
    } else {
      TrimFrontExact(q, lo, pos + |data|);
      assert r[1..] == TrimFront(q, pos + |data|);
      forall p
        ensures At(r, p) == Overlaid(q, pos, data, p)
      {
        NotStraddled(q, pos, p);
        if q != [] && p < pos && !q[0].Has(p) {
          NothingBelow(q[1..], q[0].End(), p);
        }
      }
    }
  }

  lemma {:induction false} NotStraddled(q: Queue, pos: int, p: int)
    ensures Straddled(q, pos, p) ==> p < pos && At(q, p).Some?
  {
    if q != [] {
      NotStraddled(q[1..], pos, p);
    }
  }

  /** No entry straddles `pos`. */
  ghost predicate Unbroken(q: Queue, pos: int) {
    forall p :: !Straddled(q, pos, p)
  }

  /** Insertion leaves the coverage below `pos` as it was. */
  ghost predicate KeepsBelow(q: Queue, pos: int, data: Bytes) {
    forall p :: p < pos ==> At(Insert(q, pos, data), p) == At(q, p)
  }

  /** Plain union coverage holds exactly when no entry straddles the new segment's start. */
  lemma {:induction false} InsertIsUnionIff(q: Queue, lo: int, pos: int, data: Bytes)
    requires SortedFrom(q, lo) && data != []
    ensures KeepsBelow(q, pos, data) <==> Unbroken(q, pos)
  {
    InsertCoverage(q, lo, pos, data);
    if !Unbroken(q, pos) {
      var p :| Straddled(q, pos, p);
      NotStraddled(q, pos, p);
      assert At(Insert(q, pos, data), p) == Overlaid(q, pos, data, p) == None;
    }
  }

  /** The lost prefix on a concrete queue: bytes 10..13 are held, byte 12 arrives, 10 and 11 go. */
  lemma {:induction false} InsertLosesPrefix()
    ensures var q := [Entry(10, [1, 2, 3, 4])];
      && Insert(q, 12, [3]) == [Entry(12, [3]), Entry(13, [4])]
      && At(q, 10) == Some(1) && At(Insert(q, 12, [3]), 10) == None
  {
    var q := [Entry(10, [1, 2, 3, 4])];
    assert TrimFront(q, 13) == [Entry(13, [4])];
    var r := Insert(q, 12, [3]);
    assert r[1..] == [Entry(13, [4])];
    assert SortedFrom(r[1..][1..], 14);
    NothingBelow(r, 12, 10);
  }

  // ---------- draining ----------

  /** The receive side of a TCB: the next expected position, the unread in-order bytes, the queue. */
  datatype Receive = Receive(nxt: int, unread: Bytes, ooo: Queue) {
    /** The stream position of the next byte utcp_read will return. */
    function ReadPos(): int { nxt - |unread| }

    /** The space not taken by unread or queued bytes: tested on arrival and advertised. */
    function Free(): int { BUF_SIZE - |unread| - Count(ooo) }
  }

  /** Holds at every lock release: a sorted queue strictly past `nxt`, and the shared space never
      overrun. */
  predicate Consistent(r: Receive) {
    SortedFrom(r.ooo, r.nxt + 1) && r.Free() >= 0
  }

  /** drain_ooo_queue. */
  function Drain(r: Receive): Receive
    decreases |r.ooo|
  {
    if r.ooo == [] then r
    else
      var e := r.ooo[0];
      if e.End() <= r.nxt then Drain(r.(ooo := r.ooo[1..]))
      else if e.pos > r.nxt then r
      else
        var news := e.data[r.nxt - e.pos..];
        if |news| > BUF_SIZE - |r.unread| then r.(ooo := [Entry(r.nxt, news)] + r.ooo[1..])
        else Drain(Receive(r.nxt + |news|, r.unread + news, r.ooo[1..]))
  }

  /** `d` is `r` after moving the covered run of bytes at `r.nxt` into the unread bytes. */
  ghost predicate Drained(r: Receive, d: Receive) {
    && r.nxt <= d.nxt
    && d.ReadPos() == r.ReadPos()
    && r.unread <= d.unread
    && (forall p :: r.nxt <= p < d.nxt ==> At(r.ooo, p) == Some(d.unread[p - d.ReadPos()]))
    && At(r.ooo, d.nxt) == None
    && (forall p :: p >= d.nxt ==> At(d.ooo, p) == At(r.ooo, p))
  }

  /** Drain completeness in terms of coverage alone: every covered byte from `nxt` up to the first
      gap is delivered in order, the coverage past the gap is kept, the queue then starts strictly
      past `nxt`, and the space test inside the loop never fails. */
  lemma {:induction false} DrainExact(r: Receive, lo: int)
    requires SortedFrom(r.ooo, lo) && r.Free() >= 0
    ensures Drained(r, Drain(r))
    ensures Consistent(Drain(r))
    decreases |r.ooo|
  {
    hide Drained, At;
    if r.ooo == [] {
      DrainIdle(r);
    } else {
      var e, t := r.ooo[0], r.ooo[1..];
      if e.End() <= r.nxt {
        DrainExact(r.(ooo := t), e.End());
        DrainSkip(r, Drain(r.(ooo := t)));
      } else if e.pos > r.nxt {
        NothingBelow(r.ooo, e.pos, r.nxt);
        DrainIdle(r);
      } else {
        var news := e.data[r.nxt - e.pos..];
        var r1 := Receive(r.nxt + |news|, r.unread + news, t);
        DrainExact(r1, e.End());
        DrainStep(r, r1, Drain(r1));
      }
    }
  }

  /** With nothing at `nxt` there is nothing to move. */
  lemma {:induction false} DrainIdle(r: Receive)
    requires r.ooo == [] || At(r.ooo, r.nxt) == None
    ensures Drained(r, r)
  {
  }

  /** An entry wholly below `nxt` covers nothing that matters. */
  lemma {:induction false} DrainSkip(r: Receive, d: Receive)
    requires r.ooo != [] && r.ooo[0].End() <= r.nxt && Drained(r.(ooo := r.ooo[1..]), d)
    ensures Drained(r, d)
  {
    assert forall p :: p >= r.nxt ==> At(r.ooo, p) == At(r.ooo[1..], p);
  }

  /** One consumed entry followed by a complete drain of the rest is a complete drain. */
  lemma {:induction false} DrainStep(r: Receive, r1: Receive, d: Receive)
    requires r.ooo != [] && r.ooo[0].pos <= r.nxt < r.ooo[0].End()
    requires var news := r.ooo[0].data[r.nxt - r.ooo[0].pos..];
      r1 == Receive(r.nxt + |news|, r.unread + news, r.ooo[1..])
    requires Drained(r1, d)
    ensures Drained(r, d)
  {
    var e := r.ooo[0];
    forall p | r.nxt <= p < d.nxt
      ensures At(r.ooo, p) == Some(d.unread[p - d.ReadPos()])
    {
      if p < e.End() {
        assert d.unread[p - d.ReadPos()] == r1.unread[p - d.ReadPos()];
      } else {
        assert At(r1.ooo, p) == Some(d.unread[p - d.ReadPos()]);
      }
    }
  }

  // ---------- segment arrival ----------

  datatype Outcome = Duplicate | Accepted(gapFilled: bool) | NoSpace | OutOfOrder

  /** The receive half of handle_received_data for a non-empty payload starting at `pos`. */
  function Arrive(r: Receive, pos: int, data: Bytes): (Receive, Outcome)
    requires data != []
  {
    var dup := if pos < r.nxt then r.nxt - pos else 0;
    if dup >= |data| then (r, Duplicate)
    else ArriveNew(r, pos + dup, data[dup..])
  }

  /** Arrival after the already received prefix has been trimmed. */
  function ArriveNew(r: Receive, pos: int, data: Bytes): (Receive, Outcome)
    requires data != [] && pos >= r.nxt
  {
    if pos == r.nxt then
      if |data| <= r.Free() then
        var r1 := Receive(r.nxt + |data|, r.unread + data, r.ooo);
        var r2 := Drain(r1);
        (r2, Accepted(r2.nxt != r1.nxt))
      else (r, NoSpace)
    else if |data| > r.Free() then (r, OutOfOrder)
    else (r.(ooo := Insert(r.ooo, pos, data)), OutOfOrder)
  }

  /** utcp_read: hands over at most `len` of the unread bytes. */
  function TakeUnread(r: Receive, len: nat): (Receive, Bytes) {
    var n := Min(len, |r.unread|);
    (r.(unread := r.unread[n..]), r.unread[..n])
  }

  /** Receive capacity over arrivals: every arrival keeps the receive side consistent, never moves
      the read position, and never withdraws an accepted byte. */
  lemma {:induction false} ArriveConsistent(r: Receive, pos: int, data: Bytes)
    requires Consistent(r) && data != []
    ensures var (r', o) := Arrive(r, pos, data);
      && Consistent(r')
      && r'.nxt >= r.nxt
      && r'.ReadPos() == r.ReadPos()
      && r.unread <= r'.unread
      && (r'.nxt > r.nxt <==> o.Accepted?)
  {
    hide Count, Drain, Insert, At;
    var dup := if pos < r.nxt then r.nxt - pos else 0;
    if dup < |data| {
      var s, d := pos + dup, data[dup..];
      if s == r.nxt {
        if |d| <= r.Free() {
          DrainExact(Receive(r.nxt + |d|, r.unread + d, r.ooo), r.nxt + 1);
        }
      } else if |d| <= r.Free() {
        InsertSorted(r.ooo, r.nxt + 1, s, d);
      }
    }
  }

  /** In-window acceptance: with every queued byte and a disjoint in-order segment inside one buffer
      length of the read position, the segment is never dropped for lack of space. */
  lemma {:induction false} InWindowAccepted(r: Receive, data: Bytes)
    requires Consistent(r) && data != []
    requires forall p :: At(r.ooo, p).Some? ==> r.nxt + |data| <= p < r.ReadPos() + BUF_SIZE
    requires r.nxt + |data| <= r.ReadPos() + BUF_SIZE
    ensures Arrive(r, r.nxt, data).1.Accepted?
  {
    if r.ooo != [] {
      assert At(r.ooo, r.ooo[0].pos).Some?;
    }
    CountBound(r.ooo, r.nxt + |data|, r.ReadPos() + BUF_SIZE);
    assert data[0..] == data;
  }

  /** Disjointness cannot be dropped: a retransmission overlapping a queued byte is refused
      although the bytes it adds would fit. */
  lemma {:induction false} OverlapRefused(unread: Bytes)
    requires |unread| == BUF_SIZE - 3
    ensures var r := Receive(BUF_SIZE, unread, [Entry(BUF_SIZE + 1, [7])]);
      && Consistent(r)
      && r.nxt + 3 <= r.ReadPos() + BUF_SIZE
      && Arrive(r, r.nxt, [6, 7, 8]).1 == NoSpace
  {
    var q := [Entry(BUF_SIZE + 1, [7])];
    assert q[1..] == [];
    assert Count(q) == 1 + Count(q[1..]) == 1;
    assert [6, 7, 8][0..] == [6, 7, 8];
  }

  // ---------- faithfulness to the peer's stream ----------

  /** Everything held agrees with the stream the peer is sending. */
  ghost predicate Faithful(r: Receive, stream: Bytes) {
    && 0 <= r.ReadPos() <= r.nxt <= |stream|
    && r.unread == stream[r.ReadPos()..r.nxt]
    && forall p :: At(r.ooo, p).Some? ==> 0 <= p < |stream| && At(r.ooo, p).value == stream[p]
  }

  lemma {:induction false} DrainFaithful(r: Receive, lo: int, stream: Bytes)
    requires SortedFrom(r.ooo, lo) && r.Free() >= 0 && Faithful(r, stream)
    ensures Faithful(Drain(r), stream)
  {
    DrainExact(r, lo);
    DrainedFaithful(r, Drain(r), stream);
  }

  lemma {:induction false} DrainedFaithful(r: Receive, d: Receive, stream: Bytes)
    requires Faithful(r, stream) && Drained(r, d) && Consistent(d)
    ensures Faithful(d, stream)
  {
    hide At, Count;
    assert d.nxt > r.nxt ==> At(r.ooo, d.nxt - 1).Some?;
    forall i | 0 <= i < |d.unread|
      ensures d.unread[i] == stream[d.ReadPos() + i]
    {
      if i < |r.unread| {
        assert d.unread[i] == r.unread[i];
      } else {
        assert At(r.ooo, d.ReadPos() + i) == Some(d.unread[i]);
      }
    }
    forall p | At(d.ooo, p).Some?
      ensures 0 <= p < |stream| && At(d.ooo, p).value == stream[p]
    {
      if p < d.nxt {
        NothingBelow(d.ooo, d.nxt + 1, p);
      } else {
        assert At(d.ooo, p) == At(r.ooo, p);
      }
    }
  }

  /** A genuine segment keeps the receive side faithful, whatever was lost, repeated or reordered. */
  lemma {:induction false} ArriveFaithful(r: Receive, pos: int, data: Bytes, stream: Bytes)
    requires Consistent(r) && Faithful(r, stream) && data != []
    requires 0 <= pos && pos + |data| <= |stream| && data == stream[pos..pos + |data|]
    ensures Faithful(Arrive(r, pos, data).0, stream)
  {
    var dup := if pos < r.nxt then r.nxt - pos else 0;
    hide Faithful, Drain, Insert, Count, SortedFrom;
    if dup < |data| {
      var s, d := pos + dup, data[dup..];
      SliceTail(data, stream, pos, dup);
      if |d| <= r.Free() {
        if s == r.nxt {
          AppendFaithful(r, d, stream);
          DrainFaithful(Receive(r.nxt + |d|, r.unread + d, r.ooo), r.nxt + 1, stream);
        } else {
          InsertFaithful(r, s, d, stream);
        }
      }
    }
  }

  lemma {:induction false} SliceTail(data: Bytes, stream: Bytes, pos: nat, dup: nat)
    requires pos + |data| <= |stream| && data == stream[pos..pos + |data|] && dup <= |data|
    ensures data[dup..] == stream[pos + dup..pos + |data|]
  {
  }

  lemma {:induction false} AppendFaithful(r: Receive, d: Bytes, stream: Bytes)
    requires Faithful(r, stream) && r.nxt + |d| <= |stream| && d == stream[r.nxt..r.nxt + |d|]
    ensures Faithful(Receive(r.nxt + |d|, r.unread + d, r.ooo), stream)
  {
    hide At;
    assert r.unread + d == stream[r.ReadPos()..r.nxt + |d|];
  }

  lemma {:induction false} InsertFaithful(r: Receive, pos: int, d: Bytes, stream: Bytes)
    requires Consistent(r) && Faithful(r, stream) && d != [] && r.nxt < pos
    requires pos + |d| <= |stream| && d == stream[pos..pos + |d|]
    ensures Faithful(r.(ooo := Insert(r.ooo, pos, d)), stream)
  {
    InsertCoverage(r.ooo, r.nxt + 1, pos, d);
    hide At, Insert;
  }

  /** Reading hands over the next bytes of the stream and keeps the rest. */
  lemma {:induction false} TakeFaithful(r: Receive, len: nat, stream: Bytes)
    requires Consistent(r) && Faithful(r, stream)
    ensures var (r', b) := TakeUnread(r, len);
      && Consistent(r') && Faithful(r', stream)
      && b == stream[r.ReadPos()..r'.ReadPos()]
      && r'.Free() == r.Free() + |b|
  {
  }
}
