/** Window scaling (sections 2 and 3 of RFC 7323): the 16-bit header field and the scale choice. */
module WindowScale {
  import opened Serial
  import opened Ring

  const MAX_SCALE: nat := 14

  function Pow2(n: nat): (p: nat)
    ensures p >= 1
  {
    if n == 0 then 1 else 2 * Pow2(n - 1)
  }

  /** SET_SCALED_WIN for a segment without SYN. */
  function ToField(scaled: bool, scale: nat, free: u32): u16 {
    if scaled then free / Pow2(scale) % 0x1_0000 else Min(free, 0xFFFF)
  }

  /** GET_SCALED_WIN for a segment without SYN. */
  function FromField(scaled: bool, scale: nat, win: u16): u32 {
    if scaled then Wrap(win * Pow2(scale)) else win
  }

  /** A buffer of `size` bytes does not fit the 16-bit field at this scale. */
  predicate TooBig(size: u32, scale: nat) { size / Pow2(scale) > 0xFFFF }

  /** The scale the handshake should offer: the least one, up to 14, that makes the size fit. */
  ghost predicate LeastFitting(size: u32, scale: nat) {
    && scale <= MAX_SCALE
    && (scale < MAX_SCALE ==> !TooBig(size, scale))
    && forall s: nat :: s < scale ==> TooBig(size, s)
  }

  /** The shift loop of utcp_socket. */
  method ChooseScale(size: u32) returns (scale: nat)
    ensures LeastFitting(size, scale)
  {
    scale := 0;
    while TooBig(size, scale) && scale < MAX_SCALE
      invariant scale <= MAX_SCALE
      invariant forall s: nat :: s < scale ==> TooBig(size, s)
    {
      scale := scale + 1;
    }
  }

  /** rcv_scale for the receive buffer of this stack. */
  const RCV_SCALE: nat := 5

  lemma {:induction false} Pow2Values()
    ensures Pow2(0) == 1 && Pow2(1) == 2 && Pow2(2) == 4 && Pow2(3) == 8 && Pow2(4) == 16
    ensures Pow2(RCV_SCALE) == 32
  {
    assert Pow2(2) == 2 * Pow2(1) && Pow2(3) == 2 * Pow2(2) && Pow2(4) == 2 * Pow2(3) && Pow2(5) == 2 * Pow2(4);
  }

  /** RCV_SCALE is what the loop computes for RECV_BUF_SIZE. */
  lemma {:induction false} RcvScaleIsChosen(scale: nat)
    requires LeastFitting(BUF_SIZE, scale)
    ensures scale == RCV_SCALE
  {
    Pow2Values();
    assert !TooBig(BUF_SIZE, RCV_SCALE);
    assert TooBig(BUF_SIZE, 0) && TooBig(BUF_SIZE, 1) && TooBig(BUF_SIZE, 2);
    assert TooBig(BUF_SIZE, 3) && TooBig(BUF_SIZE, 4);
  }

  /** What the peer decodes never exceeds the true free space and misses less than one scale unit;
      without scaling it is the free space cut off at 65535. */
  lemma {:induction false} AdvertisedWindow(scaled: bool, free: u32)
    requires free <= BUF_SIZE
    ensures var seen := FromField(scaled, RCV_SCALE, ToField(scaled, RCV_SCALE, free));
      && seen <= free
      && (scaled ==> free - seen < Pow2(RCV_SCALE) && seen % Pow2(RCV_SCALE) == 0)
      && (!scaled ==> seen == Min(free, 0xFFFF))
  {
    Pow2Values();
  }
}
