/** The wire form of a segment: header and option writer, deserialiser and option parsers. */
module Wire {
  import opened Serial
  import opened Ring
  import opened Reassembly
  import opened WindowScale

  const HEADER: nat := 20
  const EOL: u8 := 0
  const NOP: u8 := 1
  const WINDOW: u8 := 3
  const WINDOW_LEN: u8 := 3
  const TIMESTAMP: u8 := 8
  const TIMESTAMP_LEN: u8 := 10

  /** The receive buffer of the listening thread. */
  const BUFFER: nat := 1500

  datatype Header = Header(sport: u16, dport: u16, num: u32, ack: u32, flags: u8, win: u16)

  /** What a segment carries besides its header. */
  datatype Content = Content(scale: u8, tsval: u32, tsecr: u32, payload: Bytes)

  predicate Syn(flags: u8) { flags / 2 % 2 == 1 }

  // ---------- byte order ----------

  function Be16(x: u16): (b: Bytes)
    ensures |b| == 2
  {
    [x / 0x100, x % 0x100]
  }

  function Be32(x: u32): (b: Bytes)
    ensures |b| == 4
  {
    [x / 0x100_0000, x / 0x1_0000 % 0x100, x / 0x100 % 0x100, x % 0x100]
  }

  function Get16(b: Bytes, i: nat): u16
    requires i + 2 <= |b|
  {
    b[i] as int * 0x100 + b[i + 1] as int
  }

  function Get32(b: Bytes, i: nat): u32
    requires i + 4 <= |b|
  {
    b[i] as int * 0x100_0000 + b[i + 1] as int * 0x1_0000 + b[i + 2] as int * 0x100 + b[i + 3] as int
  }

  lemma {:induction false} Be16RoundTrip(b: Bytes, i: nat, x: u16)
    requires i + 2 <= |b| && b[i..i + 2] == Be16(x)
    ensures Get16(b, i) == x
  {
    assert b[i] == b[i..i + 2][0] && b[i + 1] == b[i..i + 2][1];
  }

  lemma {:induction false} Be32RoundTrip(b: Bytes, i: nat, x: u32)
    requires i + 4 <= |b| && b[i..i + 4] == Be32(x)
    ensures Get32(b, i) == x
  {
    assert b[i] == b[i..i + 4][0] && b[i + 1] == b[i..i + 4][1];
    assert b[i + 2] == b[i..i + 4][2] && b[i + 3] == b[i..i + 4][3];
    Digits(x);
  }

  lemma {:induction false} Digits(x: u32)
    ensures x / 0x100_0000 * 0x100_0000 + x / 0x1_0000 % 0x100 * 0x1_0000 + x / 0x100 % 0x100 * 0x100 + x % 0x100 == x
  {
    var a := x / 0x100;
    var b := a / 0x100;
    assert x == a * 0x100 + x % 0x100;
    assert a == b * 0x100 + a % 0x100;
    assert b == x / 0x1_0000 && b / 0x100 == x / 0x100_0000;
  }

  // ---------- writing ----------

  /** The timestamp option, padded with two NOPs in front. */
  function TimestampOption(tsval: u32, tsecr: u32): (o: Bytes)
    ensures |o| == 12
  {
    [NOP, NOP, TIMESTAMP, TIMESTAMP_LEN] + Be32(tsval) + Be32(tsecr)
  }

  function OptionBytes(flags: u8, c: Content): (o: Bytes)
    ensures |o| == if Syn(flags) then 16 else 12
  {
    if Syn(flags) then [NOP, WINDOW, WINDOW_LEN, c.scale] + TimestampOption(c.tsval, c.tsecr)
    else TimestampOption(c.tsval, c.tsecr)
  }

  /** th_off_flags: header length in words in the upper half, the low flag bits in the lower. */
  function OffsetByte(flags: u8): u8 {
    (HEADER + if Syn(flags) then 16 else 12) / 4 * 16 + flags % 16
  }

  function HeaderBytes(h: Header): (b: Bytes)
    ensures |b| == HEADER
  {
    Be16(h.sport) + Be16(h.dport) + Be32(h.num) + Be32(h.ack) + [OffsetByte(h.flags), h.flags] + Be16(h.win)
      + [0, 0, 0, 0]
  }

  /** The bytes utcp_send_segment hands to UDP. */
  function Serialised(h: Header, c: Content): Bytes {
    HeaderBytes(h) + OptionBytes(h.flags, c) + c.payload
  }

  /** The header fields of utcp_send_segment, written into a zeroed buffer. */
  method FillHeader(seg: array<u8>, h: Header)
    requires seg.Length >= HEADER && forall k :: 0 <= k < HEADER ==> seg[k] == 0
    modifies seg
    ensures seg[..HEADER] == HeaderBytes(h)
    ensures forall k :: HEADER <= k < seg.Length ==> seg[k] == old(seg[k])
  {
    Copy(seg, 0, Be16(h.sport));
    Copy(seg, 2, Be16(h.dport));
    Copy(seg, 4, Be32(h.num));
    Copy(seg, 8, Be32(h.ack));
    seg[13] := h.flags;
    seg[12] := OffsetByte(h.flags);
    Copy(seg, 14, Be16(h.win));
  }

  /** utcp_send_segment's buffer: allocated, zeroed, then header, options and payload. */
  method Build(h: Header, c: Content) returns (seg: array<u8>)
    ensures fresh(seg) && seg[..] == Serialised(h, c)
  {
    var options := OptionBytes(h.flags, c);
    seg := new u8[HEADER + |options| + |c.payload|](_ => 0);
    FillHeader(seg, h);
    ghost var header := seg[..HEADER];
    Copy(seg, HEADER, options);
    Copy(seg, HEADER + |options|, c.payload);
    assert seg[..] == header + options + c.payload;
  }

  // ---------- reading ----------

  /** The first `n` bytes of the receive buffer hold a packet; the rest is left over. */
  predicate Received(b: Bytes, n: nat) { |b| == BUFFER && n <= BUFFER }

  function OptionsEnd(b: Bytes): nat
    requires |b| == BUFFER
  {
    b[12] / 16 * 4
  }

  function ParsedHeader(b: Bytes): Header
    requires |b| == BUFFER
  {
    Header(Get16(b, 0), Get16(b, 2), Get32(b, 4), Get32(b, 8), b[13], Get16(b, 14))
  }

  function ParsedPayload(b: Bytes, n: nat): Bytes
    requires Received(b, n)
  {
    var start := if OptionsEnd(b) < HEADER then HEADER else OptionsEnd(b);
    if start <= n then b[start..n] else []
  }

  /** deserialize_utcp_packet; a packet shorter than a header is fatal. */
  method Deserialise(b: Bytes, n: nat) returns (r: Option<(Header, Bytes)>)
    requires Received(b, n)
    ensures r == if n < HEADER then None else Some((ParsedHeader(b), ParsedPayload(b, n)))
  {
    if n < HEADER {
      return None;
    }
    var h := Header(Get16(b, 0), Get16(b, 2), Get32(b, 4), Get32(b, 8), b[13], Get16(b, 14));
    var start := b[12] / 16 * 4;
    if start < HEADER {
      start := HEADER;
    }
    var len := n - start;
    if len < 0 {
      len := 0;
      return Some((h, []));
    }
    return Some((h, b[start..start + len]));
  }

  /** The two TCB updates options can cause. */
  datatype Options = Options(scale: Option<u8>, tsRecent: Option<u32>)

  /** The option walk of process_window_option from offset `p`. */
  function Walk(b: Bytes, p: nat, end: nat, o: Options): Options
    requires |b| == BUFFER && end <= 60
    decreases end - p
  {
    if p >= end || b[p] == EOL then o
    else if b[p] == NOP then Walk(b, p + 1, end, o)
    else if b[p + 1] == 0 || p + b[p + 1] > end then o
    else
      var o1 := if b[p] == WINDOW && b[p + 1] == WINDOW_LEN then o.(scale := Some(b[p + 2])) else o;
      var o2 := if b[p] == TIMESTAMP && b[p + 1] == TIMESTAMP_LEN then o1.(tsRecent := Some(Get32(b, p + 2))) else o1;
      Walk(b, p + b[p + 1], end, o2)
  }

  /** process_window_option. */
  method ProcessOptions(b: Bytes) returns (o: Options)
    requires |b| == BUFFER
    ensures o == Walk(b, HEADER, OptionsEnd(b), Options(None, None))
  {
    o := Options(None, None);
    var p, end := HEADER, b[12] / 16 * 4;
    while p < end
      invariant Walk(b, p, end, o) == Walk(b, HEADER, end, Options(None, None))
      decreases end - p
    {
      if b[p] == EOL {
        break;
      }
      if b[p] == NOP {
        p := p + 1;
        continue;
      }
      var kind, len := b[p], b[p + 1];
      if len == 0 {
        break;
      }
      if p + len > end {
        break;
      }
      if kind == WINDOW && len == WINDOW_LEN {
        o := o.(scale := Some(b[p + 2]));
      }
      if kind == TIMESTAMP && len == TIMESTAMP_LEN {
        o := o.(tsRecent := Some(Get32(b, p + 2)));
      }
      p := p + len;
    }
  }

  /** The option walk of extract_tsecr from offset `p`. */
  function FindEcho(b: Bytes, p: nat, end: nat): Option<u32>
    requires |b| == BUFFER && end <= 60
    decreases end - p
  {
    if p >= end || b[p] == EOL then None
    else if b[p] == NOP then FindEcho(b, p + 1, end)
    else if p + 1 >= end || b[p + 1] < 2 || p + b[p + 1] > end then None
    else if b[p] == TIMESTAMP && b[p + 1] == TIMESTAMP_LEN then Some(Get32(b, p + 6))
    else FindEcho(b, p + b[p + 1], end)
  }

  /** extract_tsecr. */
  method ExtractEcho(b: Bytes) returns (echo: Option<u32>)
    requires |b| == BUFFER
    ensures echo == FindEcho(b, HEADER, OptionsEnd(b))
  {
    var p, end := HEADER, b[12] / 16 * 4;
    while p < end
      invariant FindEcho(b, p, end) == FindEcho(b, HEADER, end)
      decreases end - p
    {
      if b[p] == EOL {
        break;
      }
      if b[p] == NOP {
        p := p + 1;
        continue;
      }
      if p + 1 >= end {
        break;
      }
      var kind, len := b[p], b[p + 1];
      if len < 2 || p + len > end {
        break;
      }
      if kind == TIMESTAMP && len == TIMESTAMP_LEN {
        return Some(Get32(b, p + 6));
      }
      p := p + len;
    }
    return None;
  }

  // ---------- round trip ----------

  /** A timestamp option at offset `p` is found by both walks, whatever follows it. */
  lemma {:induction false} TimestampParsed(b: Bytes, p: nat, end: nat, o: Options, tsval: u32, tsecr: u32)
    requires |b| == BUFFER && end <= 60 && p + 12 == end
    requires b[p..end] == TimestampOption(tsval, tsecr)
    ensures Walk(b, p, end, o) == o.(tsRecent := Some(tsval))
    ensures FindEcho(b, p, end) == Some(tsecr)
  {
    var x := Stamp(tsval, tsecr);
    TimestampEncoded(tsval, tsecr);
    hide TimestampOption, Walk, FindEcho;
    OptionsParsed(b, p, end, [Nop, Nop, x], o);
    StampOnly(x, o);
  }

  /** The timestamp option with its padding is an option list. */
  lemma {:induction false} TimestampEncoded(tsval: u32, tsecr: u32)
    ensures AllWellFormed([Nop, Nop, Stamp(tsval, tsecr)])
    ensures EncodeAll([Nop, Nop, Stamp(tsval, tsecr)]) == TimestampOption(tsval, tsecr)
  {
    hide Be32;
    var x := Stamp(tsval, tsecr);
    assert [Nop, Nop, x][1..] == [Nop, x] && [Nop, x][1..] == [x] && [x][1..] == [];
    assert WellFormed(x) && WellFormed(Nop);
    assert AllWellFormed([x]) && AllWellFormed([Nop, x]) && AllWellFormed([Nop, Nop, x]);
    assert EncodeAll([x]) == Encode(x) && EncodeAll([Nop, x]) == [NOP] + Encode(x);
    assert EncodeAll([Nop, Nop, x]) == [NOP] + ([NOP] + Encode(x));
  }

  lemma {:induction false} StampOnly(x: Opt, o: Options)
    requires x.Stamp?
    ensures Meaning([Nop, Nop, x], o) == o.(tsRecent := Some(x.tsval)) && FirstEcho([Nop, Nop, x]) == Some(x.tsecr)
  {
    assert [Nop, Nop, x][1..] == [Nop, x] && [Nop, x][1..] == [x] && [x][1..] == [];
    assert Meaning([x], o) == Noted(x, o) && Meaning([Nop, x], o) == Meaning([x], o);
    assert FirstEcho([Nop, x]) == FirstEcho([x]);
  }

  /** The header fields come back. */
  lemma {:induction false} HeaderParsed(b: Bytes, h: Header)
    requires |b| == BUFFER && b[..HEADER] == HeaderBytes(h)
    ensures ParsedHeader(b) == h
    ensures OptionsEnd(b) == HEADER + if Syn(h.flags) then 16 else 12
  {
    var t := HeaderBytes(h);
    assert forall k :: 0 <= k < HEADER ==> b[k] == t[k];
    assert b[0..2] == t[0..2] == Be16(h.sport);
    assert b[2..4] == t[2..4] == Be16(h.dport);
    assert b[4..8] == t[4..8] == Be32(h.num);
    assert b[8..12] == t[8..12] == Be32(h.ack);
    assert b[14..16] == t[14..16] == Be16(h.win);
    assert t[12] == OffsetByte(h.flags) && t[13] == h.flags;
    Be16RoundTrip(b, 0, h.sport);
    Be16RoundTrip(b, 2, h.dport);
    Be32RoundTrip(b, 4, h.num);
    Be32RoundTrip(b, 8, h.ack);
    Be16RoundTrip(b, 14, h.win);
  }

  /** Wire round trip: for every header, scale, timestamps and payload that fit the receive buffer,
      and whatever an earlier packet left behind it, the receiver recovers exactly what was written. */
  lemma {:induction false} RoundTrip(h: Header, c: Content, b: Bytes, n: nat)
    requires n == |Serialised(h, c)| && Received(b, n) && b[..n] == Serialised(h, c)
    ensures ParsedHeader(b) == h
    ensures ParsedPayload(b, n) == c.payload
    ensures Walk(b, HEADER, OptionsEnd(b), Options(None, None))
         == Options(if Syn(h.flags) then Some(c.scale) else None, Some(c.tsval))
    ensures FindEcho(b, HEADER, OptionsEnd(b)) == Some(c.tsecr)
  {
    var o := OptionBytes(h.flags, c);
    var end := HEADER + |o|;
    var s := Serialised(h, c);
    assert forall k :: 0 <= k < n ==> b[k] == s[k];
    assert b[..HEADER] == s[..HEADER] == HeaderBytes(h);
    HeaderParsed(b, h);
    assert b[HEADER..end] == s[HEADER..end] == o;
    assert b[end..n] == s[end..n] == c.payload;
    if Syn(h.flags) {
      assert b[20] == o[0] == NOP && b[21] == o[1] == WINDOW && b[22] == o[2] == WINDOW_LEN && b[23] == o[3] == c.scale;
      assert b[24..36] == o[4..16] == TimestampOption(c.tsval, c.tsecr);
      var o1 := Options(Some(c.scale), None);
      TimestampParsed(b, 24, 36, o1, c.tsval, c.tsecr);
      assert Walk(b, 20, 36, Options(None, None)) == Walk(b, 21, 36, Options(None, None)) == Walk(b, 24, 36, o1);
      assert FindEcho(b, 20, 36) == FindEcho(b, 21, 36) == FindEcho(b, 24, 36);
    } else {
      TimestampParsed(b, 20, 32, Options(None, None), c.tsval, c.tsecr);
    }
  }

  /** The window a peer decodes from such a segment: at most the true free space, less than one scale
      unit below it. */
  lemma {:induction false} WindowOverTheWire(h: Header, c: Content, b: Bytes, n: nat, free: u32)
    requires n == |Serialised(h, c)| && Received(b, n) && b[..n] == Serialised(h, c)
    requires !Syn(h.flags) && free <= BUF_SIZE && h.win == ToField(true, RCV_SCALE, free)
    ensures var seen := FromField(true, RCV_SCALE, ParsedHeader(b).win);
      seen <= free < seen + Pow2(RCV_SCALE)
  {
    RoundTrip(h, c, b, n);
    AdvertisedWindow(true, free);
  }

  // ---------- the layout ----------

  /** Network byte order: the most significant byte comes first. */
  function Big16(a: int, b: int): int { a * 256 + b }

  function Big32(a: int, b: int, c: int, d: int): int { a * 0x100_0000 + b * 0x1_0000 + c * 256 + d }

  lemma {:induction false} BigEndian(x: u32)
    ensures var b := Be32(x); Big32(b[0], b[1], b[2], b[3]) == x
  {
    Digits(x);
  }

  /** Where the header fields stand (section 3.1 of RFC 9293). */
  lemma {:induction false} HeaderLayout(h: Header)
    ensures var b := HeaderBytes(h);
      && Big16(b[0], b[1]) == h.sport && Big16(b[2], b[3]) == h.dport
      && Big32(b[4], b[5], b[6], b[7]) == h.num && Big32(b[8], b[9], b[10], b[11]) == h.ack
      && b[12] / 16 * 4 == (if Syn(h.flags) then 36 else 32) && b[12] % 16 == h.flags % 16 && b[13] == h.flags
      && Big16(b[14], b[15]) == h.win && b[16..] == [0, 0, 0, 0]
  {
    BigEndian(h.num);
    BigEndian(h.ack);
    var b := HeaderBytes(h);
    hide Be32, Big32;
    assert b[4] == Be32(h.num)[0] && b[5] == Be32(h.num)[1] && b[6] == Be32(h.num)[2] && b[7] == Be32(h.num)[3];
    assert b[8] == Be32(h.ack)[0] && b[9] == Be32(h.ack)[1] && b[10] == Be32(h.ack)[2] && b[11] == Be32(h.ack)[3];
  }

  /** Where the timestamp values stand (section 3.2 of RFC 7323). */
  lemma {:induction false} TimestampLayout(tsval: u32, tsecr: u32)
    ensures var b := TimestampOption(tsval, tsecr);
      && b[0] == 1 && b[1] == 1 && b[2] == 8 && b[3] == 10
      && Big32(b[4], b[5], b[6], b[7]) == tsval && Big32(b[8], b[9], b[10], b[11]) == tsecr
  {
    BigEndian(tsval);
    BigEndian(tsecr);
    var b := TimestampOption(tsval, tsecr);
    hide Be32, Big32;
    assert b[4] == Be32(tsval)[0] && b[5] == Be32(tsval)[1] && b[6] == Be32(tsval)[2] && b[7] == Be32(tsval)[3];
    assert b[8] == Be32(tsecr)[0] && b[9] == Be32(tsecr)[1] && b[10] == Be32(tsecr)[2] && b[11] == Be32(tsecr)[3];
  }

  /** The whole segment: the header, on a SYN a NOP and the window scale option, the timestamp option, the
      payload. */
  lemma {:induction false} SegmentLayout(h: Header, c: Content)
    ensures var b := Serialised(h, c); var p := if Syn(h.flags) then 24 else 20;
      && b[..20] == HeaderBytes(h) && (Syn(h.flags) ==> b[20..24] == [1, 3, 3, c.scale])
      && b[p..p + 12] == TimestampOption(c.tsval, c.tsecr) && b[p + 12..] == c.payload
  {
    hide HeaderBytes, TimestampOption;
    var b, o, t := Serialised(h, c), OptionBytes(h.flags, c), TimestampOption(c.tsval, c.tsecr);
    assert b[HEADER..HEADER + |o|] == o;
    if Syn(h.flags) {
      assert o[..4] == [1, 3, 3, c.scale] && o[4..] == t;
      assert b[20..24] == b[20..36][..4] && b[24..36] == b[20..36][4..];
    }
  }

  /** The payload of any datagram: what is left of it past the header length it states, which counts as 20
      bytes if it states less, and nothing if it states more than there is. */
  lemma {:induction false} PayloadExact(b: Bytes, n: nat)
    requires Received(b, n)
    ensures var stated, d := b[12] / 16 * 4, ParsedPayload(b, n);
      && |d| == Max(0, n - Max(HEADER, stated))
      && forall k :: 0 <= k < |d| ==> d[k] == b[n - |d| + k]
  {
  }

  // ---------- any option list ----------

  /** An option as section 3.1 of RFC 9293 lays it out; `Other` is any kind this stack does not know. */
  datatype Opt = Nop | Scale(shift: u8) | Stamp(tsval: u32, tsecr: u32) | Other(kind: u8, body: Bytes)

  predicate WellFormed(o: Opt) {
    o.Other? ==> o.kind !in {EOL, NOP, WINDOW, TIMESTAMP} && |o.body| <= 253
  }

  function Encode(o: Opt): (b: Bytes)
    requires WellFormed(o)
    ensures b != []
  {
    match o
    case Nop => [NOP]
    case Scale(shift) => [WINDOW, WINDOW_LEN, shift]
    case Stamp(tsval, tsecr) => [TIMESTAMP, TIMESTAMP_LEN] + Be32(tsval) + Be32(tsecr)
    case Other(kind, body) => [kind, 2 + |body|] + body
  }

  predicate AllWellFormed(os: seq<Opt>) {
    os == [] || (WellFormed(os[0]) && AllWellFormed(os[1..]))
  }

  function EncodeAll(os: seq<Opt>): Bytes
    requires AllWellFormed(os)
  {
    if os == [] then [] else Encode(os[0]) + EncodeAll(os[1..])
  }

  /** What one option means to process_window_option. */
  function Noted(x: Opt, o: Options): Options {
    match x
    case Scale(shift) => o.(scale := Some(shift))
    case Stamp(tsval, _) => o.(tsRecent := Some(tsval))
    case _ => o
  }

  /** What the options mean to it: the last of a kind counts. */
  function Meaning(os: seq<Opt>, o: Options): Options {
    if os == [] then o else Meaning(os[1..], Noted(os[0], o))
  }

  /** What they mean to extract_tsecr: the first timestamp counts. */
  function FirstEcho(os: seq<Opt>): Option<u32> {
    if os == [] then None else if os[0].Stamp? then Some(os[0].tsecr) else FirstEcho(os[1..])
  }

  /** The bytes of an option, where they stand in the buffer. */
  predicate Stands(b: Bytes, p: nat, t: Bytes) { p + |t| <= |b| && b[p..p + |t|] == t }

  lemma {:induction false} StandsAt(b: Bytes, p: nat, t: Bytes, k: nat)
    requires Stands(b, p, t) && k < |t|
    ensures b[p + k] == t[k]
  {
    assert b[p + k] == b[p..p + |t|][k];
  }

  lemma {:induction false} StandsSplit(b: Bytes, p: nat, t: Bytes, u: Bytes)
    requires Stands(b, p, t + u)
    ensures Stands(b, p, t) && Stands(b, p + |t|, u)
  {
    var q := p + |t| + |u|;
    assert b[p..p + |t|] == b[p..q][..|t|] == t;
    assert b[p + |t|..q] == b[p..q][|t|..] == u;
  }

  lemma {:induction false} StampParsed(b: Bytes, p: nat, end: nat, tsval: u32, tsecr: u32, o: Options)
    requires |b| == BUFFER && p + 10 <= end <= 60 && Stands(b, p, Encode(Stamp(tsval, tsecr)))
    ensures Walk(b, p, end, o) == Walk(b, p + 10, end, o.(tsRecent := Some(tsval)))
    ensures FindEcho(b, p, end) == Some(tsecr)
  {
    var x := [TIMESTAMP, TIMESTAMP_LEN];
    hide Be32, Get32, Walk, FindEcho;
    assert Encode(Stamp(tsval, tsecr)) == x + (Be32(tsval) + Be32(tsecr));
    StandsSplit(b, p, x, Be32(tsval) + Be32(tsecr));
    StandsSplit(b, p + 2, Be32(tsval), Be32(tsecr));
    StandsAt(b, p, x, 0);
    StandsAt(b, p, x, 1);
    Be32RoundTrip(b, p + 2, tsval);
    Be32RoundTrip(b, p + 6, tsecr);
    StampStep(b, p, end, o);
  }

  /** One step of each parser on a timestamp option. */
  lemma {:induction false} StampStep(b: Bytes, p: nat, end: nat, o: Options)
    requires |b| == BUFFER && p + 10 <= end <= 60 && b[p] == TIMESTAMP && b[p + 1] == TIMESTAMP_LEN
    ensures Walk(b, p, end, o) == Walk(b, p + 10, end, o.(tsRecent := Some(Get32(b, p + 2))))
    ensures FindEcho(b, p, end) == Some(Get32(b, p + 6))
  {
    hide Get32;
  }

  lemma {:induction false} OptionParsed(b: Bytes, p: nat, end: nat, x: Opt, o: Options)
    requires |b| == BUFFER && end <= 60 && WellFormed(x) && p + |Encode(x)| <= end && Stands(b, p, Encode(x))
    ensures Walk(b, p, end, o) == Walk(b, p + |Encode(x)|, end, Noted(x, o))
    ensures FindEcho(b, p, end) == if x.Stamp? then Some(x.tsecr) else FindEcho(b, p + |Encode(x)|, end)
  {
    StandsAt(b, p, Encode(x), 0);
    if !x.Nop? {
      StandsAt(b, p, Encode(x), 1);
    }
    hide Stands, Be32;
    match x
    case Nop =>
    case Scale(shift) =>
      StandsAt(b, p, Encode(x), 2);
    case Stamp(tsval, tsecr) =>
      StampParsed(b, p, end, tsval, tsecr, o);
    case Other(kind, body) =>
  }

  /** Both parsers understand every well-formed option list, whatever unknown options stand in between,
      closed by the end of the header or by an end-of-list option. */
  lemma {:induction false} OptionsParsed(b: Bytes, p: nat, end: nat, os: seq<Opt>, o: Options)
    requires |b| == BUFFER && end <= 60 && AllWellFormed(os)
    requires var q := p + |EncodeAll(os)|; q <= end && Stands(b, p, EncodeAll(os)) && (q == end || b[q] == EOL)
    ensures Walk(b, p, end, o) == Meaning(os, o)
    ensures FindEcho(b, p, end) == FirstEcho(os)
    decreases |os|
  {
    hide Walk, FindEcho, Encode, Stands, Noted, WellFormed;
    if os == [] {
      ListEnds(b, p, end, o);
    } else {
      var x, rest := os[0], os[1..];
      StandsSplit(b, p, Encode(x), EncodeAll(rest));
      OptionParsed(b, p, end, x, o);
      OptionsParsed(b, p + |Encode(x)|, end, rest, Noted(x, o));
    }
  }

  lemma {:induction false} ListEnds(b: Bytes, p: nat, end: nat, o: Options)
    requires |b| == BUFFER && p <= end <= 60 && (p == end || b[p] == EOL)
    ensures Walk(b, p, end, o) == o && FindEcho(b, p, end) == None
  {
  }
}
