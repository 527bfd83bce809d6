/** The send and receive rings: a fixed array addressed by free-running 32-bit counters. */
module Ring {
  import opened Serial

  /** SEND_BUF_SIZE and RECV_BUF_SIZE. */
  const BUF_SIZE: int := 0x10_0000

  type Bytes = seq<u8>

  /** The array cell of the byte `i` places after a free-running counter. */
  function Cell(offset: int, i: int): (k: nat)
    ensures k < BUF_SIZE
  {
    (offset + i) % BUF_SIZE
  }

  /** How many bytes after the counter `offset` the cell `k` is reached: the inverse of Cell. */
  function Dist(offset: int, k: int): (i: nat)
    ensures i < BUF_SIZE
  {
    (k - offset) % BUF_SIZE
  }

  /** The ring holds `content` starting at stream offset `start`. */
  ghost predicate Holds(ring: array<u8>, start: int, content: Bytes)
    reads ring
  {
    && ring.Length == BUF_SIZE
    && |content| <= BUF_SIZE
    && forall k :: 0 <= k < BUF_SIZE && Dist(start, k) < |content| ==> ring[k] == content[Dist(start, k)]
  }

  /** Reducing a counter modulo 2^32 first never changes the cell, and only for divisors of 2^32. */
  lemma {:induction false} WrapClean(size: int)
    requires 0 < size <= TWO32
    ensures (forall x: int :: Wrap(x) % size == x % size) <==> TWO32 % size == 0
  {
    if TWO32 % size == 0 {
      forall x: int
        ensures Wrap(x) % size == x % size
      {
        var k := TWO32 / size;
        assert TWO32 == size * k;
        var c := x / TWO32;
        assert x == size * (k * c) + Wrap(x) by {
          assert x == TWO32 * c + Wrap(x);
          assert size * k * c == size * (k * c);
        }
        ModShift(Wrap(x), size, k * c);
      }
    } else {
      assert Wrap(TWO32) % size == 0 != TWO32 % size;
    }
  }

  lemma {:induction false} ModShift(a: int, n: int, k: int)
    requires n > 0
    ensures (a + n * k) % n == a % n
  {
    var q, r := a / n, a % n;
    assert a + n * k == n * (q + k) + r by {
      assert n * (q + k) == n * q + n * k;
    }
    DivModUnique(a + n * k, n, q + k, r);
  }

  lemma {:induction false} DivModUnique(a: int, n: int, q: int, r: int)
    requires n > 0 && a == n * q + r && 0 <= r < n
    ensures a % n == r
  {
    var q', r' := a / n, a % n;
    assert n * (q - q') == r' - r by {
      assert n * (q - q') == n * q - n * q';
    }
    assert -n < n * (q - q') < n;
    if q > q' {
      MulAtLeast(n, q - q');
    } else if q < q' {
      MulAtLeast(n, q' - q);
    }
  }

  lemma {:induction false} MulAtLeast(n: int, d: int)
    requires n > 0 && d >= 1
    ensures n * d >= n
  {
  }

  /** The rings' own size divides 2^32, so a wrapped counter names the same cells. */
  lemma {:induction false} DistOfWrap(x: int, k: int)
    ensures Dist(Wrap(x), k) == Dist(x, k)
  {
    assert x == TWO32 * (x / TWO32) + Wrap(x);
    assert TWO32 == 4096 * BUF_SIZE;
  }

  /** Cell and Dist are inverse, so offsets less than a ring apart live in different cells. */
  lemma {:induction false} CellDist(offset: int, i: int, k: int)
    requires 0 <= i < BUF_SIZE && 0 <= k < BUF_SIZE
    ensures Cell(offset, i) == k <==> Dist(offset, k) == i
  {
  }

  /** Moving the counter by `n` moves every distance by `n`, around the ring. */
  lemma {:induction false} DistShift(offset: int, n: int, k: int)
    requires 0 <= n <= BUF_SIZE
    ensures Dist(offset + n, k) == if Dist(offset, k) >= n then Dist(offset, k) - n else Dist(offset, k) - n + BUF_SIZE
  {
  }

  /** ring_buf_read: the bytes from the counter's cell on, across the wrap-around. */
  method Read(ring: array<u8>, offset: u32, len: nat) returns (dst: Bytes)
    requires ring.Length == BUF_SIZE && len <= BUF_SIZE
    ensures |dst| == len
    ensures forall i :: 0 <= i < len ==> dst[i] == ring[Cell(offset, i)]
  {
    if len == 0 {
      return [];
    }
    var physical := offset % BUF_SIZE;
    if physical + len <= BUF_SIZE {
      dst := ring[physical..physical + len];
    } else {
      var part1 := BUF_SIZE - physical;
      dst := ring[physical..] + ring[..len - part1];
    }
  }

  /** Copies `src` into `ring` from index `at` on. */
  method Copy(ring: array<u8>, at: nat, src: Bytes)
    requires at + |src| <= ring.Length
    modifies ring
    ensures forall k :: 0 <= k < ring.Length ==>
      ring[k] == if at <= k < at + |src| then src[k - at] else old(ring[k])
  {
    forall k | 0 <= k < |src| {
      ring[at + k] := src[k];
    }
  }

  /** ring_buf_write: cell by cell, the source byte at the cell's distance from the counter,
      or the old byte where that distance is past the source. */
  method Write(ring: array<u8>, offset: u32, src: Bytes)
    requires ring.Length == BUF_SIZE && |src| <= BUF_SIZE
    modifies ring
    ensures forall k :: 0 <= k < BUF_SIZE ==>
      ring[k] == if Dist(offset, k) < |src| then src[Dist(offset, k)] else old(ring[k])
  {
    if |src| == 0 {
      return;
    }
    var physical := offset % BUF_SIZE;
    if physical + |src| <= BUF_SIZE {
      Copy(ring, physical, src);
    } else {
      var part1 := BUF_SIZE - physical;
      Copy(ring, physical, src[..part1]);
      Copy(ring, 0, src[part1..]);
    }
  }

  /** Appending at the wrapped tail counter: FIFO refinement of a write into the free space. */
  method Append(ring: array<u8>, ghost start: int, ghost content: Bytes, tail: u32, src: Bytes)
    requires Holds(ring, start, content)
    requires tail == Wrap(start + |content|)
    requires |content| + |src| <= BUF_SIZE
    modifies ring
    ensures Holds(ring, start, content + src)
  {
    Write(ring, tail, src);
    forall k | 0 <= k < BUF_SIZE && Dist(start, k) < |content + src|
      ensures ring[k] == (content + src)[Dist(start, k)]
    {
      DistOfWrap(start + |content|, k);
      DistShift(start, |content|, k);
    }
  }

  /** Reading at a wrapped counter inside the held range gives that slice of the content. */
  method Slice(ring: array<u8>, ghost start: int, ghost content: Bytes, offset: u32, ghost from: nat, len: nat)
    returns (dst: Bytes)
    requires Holds(ring, start, content)
    requires from + len <= |content|
    requires offset == Wrap(start + from)
    ensures dst == content[from..from + len]
  {
    dst := Read(ring, offset, len);
    forall i | 0 <= i < len
      ensures dst[i] == content[from + i]
    {
      var k := Cell(offset, i);
      CellDist(offset, i, k);
      DistOfWrap(start + from, k);
      DistShift(start, from, k);
    }
  }

  /** Consuming from the front of the ring is moving its head counter. */
  lemma {:induction false} HoldsSuffix(ring: array<u8>, start: int, content: Bytes, n: nat)
    requires Holds(ring, start, content) && n <= |content|
    ensures Holds(ring, start + n, content[n..])
  {
    forall k | 0 <= k < BUF_SIZE && Dist(start + n, k) < |content| - n
      ensures ring[k] == content[n..][Dist(start + n, k)]
    {
      DistShift(start, n, k);
    }
  }
}
