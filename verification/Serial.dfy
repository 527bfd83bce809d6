/** Serial-number arithmetic: the 32-bit counters of the TCB and the SEQ_* macros.
    A stream position is an unbounded integer; the wire carries it modulo 2^32. */
module Serial {

  const TWO31: int := 0x8000_0000
  const TWO32: int := 0x1_0000_0000

  type u8 = x: int | 0 <= x < 0x100
  type u16 = x: int | 0 <= x < 0x1_0000
  type u32 = x: int | 0 <= x < 0x1_0000_0000

  function Wrap(p: int): u32 { p % TWO32 }

  /** Unsigned 32-bit addition. */
  function Add32(a: u32, b: u32): u32 { if a + b < TWO32 then a + b else a + b - TWO32 }

  /** Unsigned 32-bit subtraction. */
  function Sub32(a: u32, b: u32): u32 { if a >= b then a - b else a - b + TWO32 }

  /** The two's-complement reading that the C cast (int) gives to an unsigned difference. */
  function AsInt(d: u32): int { if d < TWO31 then d else d - TWO32 }

  predicate SeqLt(a: u32, b: u32) { AsInt(Sub32(a, b)) < 0 }

  predicate SeqLeq(a: u32, b: u32) { AsInt(Sub32(a, b)) <= 0 }

  predicate SeqGt(a: u32, b: u32) { AsInt(Sub32(a, b)) > 0 }

  predicate SeqGeq(a: u32, b: u32) { AsInt(Sub32(a, b)) >= 0 }

  /** The position nearest to `near` whose wire form is `s`. */
  function Unwrap(near: int, s: u32): int { near + AsInt(Sub32(s, Wrap(near))) }

  function Min(a: int, b: int): int { if a < b then a else b }

  function Max(a: int, b: int): int { if a > b then a else b }

  /** Wrapping commutes with offsets, so counters may be advanced on the wire form. */
  lemma {:induction false} WrapShift(p: int, d: u32)
    ensures Add32(Wrap(p), d) == Wrap(p + d)
  {
  }

  /** The difference of two wire values is the wire form of the difference. */
  lemma {:induction false} WrapDiff(p: int, q: int)
    ensures Sub32(Wrap(p), Wrap(q)) == Wrap(p - q)
  {
  }

  /** Section 3.4 of RFC 9293: the four macros order any two positions less than 2^31 apart. */
  lemma {:induction false} SerialOrder(p: int, q: int)
    requires -TWO31 <= p - q < TWO31
    ensures SeqLt(Wrap(p), Wrap(q)) <==> p < q
    ensures SeqLeq(Wrap(p), Wrap(q)) <==> p <= q
    ensures SeqGt(Wrap(p), Wrap(q)) <==> p > q
    ensures SeqGeq(Wrap(p), Wrap(q)) <==> p >= q
    ensures Wrap(p) == Wrap(q) <==> p == q
    ensures p >= q ==> Sub32(Wrap(p), Wrap(q)) == p - q
  {
    WrapDiff(p, q);
  }

  /** A position within 2^31 of a reference survives the trip over the wire. */
  lemma {:induction false} UnwrapWrap(near: int, p: int)
    requires -TWO31 <= p - near < TWO31
    ensures Unwrap(near, Wrap(p)) == p
  {
    WrapDiff(p, near);
  }

  /** Every wire value has exactly one position in the half-open window around a reference. */
  lemma {:induction false} WrapUnwrap(near: int, s: u32)
    ensures Wrap(Unwrap(near, s)) == s
    ensures -TWO31 <= Unwrap(near, s) - near < TWO31
  {
  }
}
