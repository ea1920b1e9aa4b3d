/**
 The wire encoding of one LED's colour (`ColorPattern`, `TimingConfig` and `render_led` in
 src/iled.rs): each channel's top bits, most significant first, each replaced by the symbol of a
 data "1" or "0", packed into bytes.
 */
module IledWire {
  import opened Prelude
  import opened Arith
  import opened Bits

  datatype Channel = Red | Green | Blue | WarmWhite | ColdWhite

  datatype Color = Color(r: Byte, g: Byte, b: Byte, w: Byte, c: Byte)

  /** The channels of one packet in order, each with its bit depth (the used entries of `ColorPattern`). */
  type Pattern = seq<(Channel, nat)>

  datatype Timing = Timing(high: nat, low: nat, resolution: nat, patternNs: nat, resetNs: nat)

  const MAX_COLOR_CHANNELS := 5
  const MAX_CHANNEL_BITS := 8
  const MIN_RESOLUTION := 2
  const MAX_RESOLUTION := 8
  const MIN_PATTERN_NS := 1_000
  const MAX_RESET_NS := 1_000_000

  predicate ValidPattern(p: Pattern) {
    1 <= |p| <= MAX_COLOR_CHANNELS && forall i | 0 <= i < |p| :: 1 <= p[i].1 <= MAX_CHANNEL_BITS
  }

  predicate ValidTiming(t: Timing) {
    && MIN_RESOLUTION <= t.resolution <= MAX_RESOLUTION
    && t.high < Pow2(t.resolution) && t.low < Pow2(t.resolution)
    && MIN_PATTERN_NS <= t.patternNs < 0x1_0000_0000 && t.resetNs <= MAX_RESET_NS
  }

  function RawValue(ch: Channel, color: Color): Byte {
    match ch
    case Red => color.r
    case Green => color.g
    case Blue => color.b
    case WarmWhite => color.w
    case ColdWhite => color.c
  }

  /** `total_bits`. */
  function TotalBits(p: Pattern): nat {
    if p == [] then 0 else TotalBits(p[..|p| - 1]) + p[|p| - 1].1
  }

  lemma {:induction false} TotalBitsBound(p: Pattern)
    requires forall i | 0 <= i < |p| :: p[i].1 <= MAX_CHANNEL_BITS
    ensures TotalBits(p) <= |p| * MAX_CHANNEL_BITS
  {
    if p != [] { TotalBitsBound(p[..|p| - 1]); }
  }

  // ---------------------------------------------------------------- what goes over the wire

  /** A channel's most significant `bits` bits, as a number. */
  function Truncated(ch: Channel, bits: nat, color: Color): (v: nat)
    requires bits <= MAX_CHANNEL_BITS
  {
    ShiftRight(RawValue(ch, color), MAX_CHANNEL_BITS - bits)
  }

  /** The data bits of one packet. */
  function DataBits(color: Color, p: Pattern): (bits: seq<bool>)
    requires forall i | 0 <= i < |p| :: p[i].1 <= MAX_CHANNEL_BITS
    ensures |bits| == TotalBits(p)
  {
    if p == [] then []
    else
      var (ch, bits) := p[|p| - 1];
      DataBits(color, p[..|p| - 1]) + ToMsb(Truncated(ch, bits, color), bits)
  }

  /** The symbol of one data bit. */
  function Symbol(t: Timing, bit: bool): (s: seq<bool>)
    ensures |s| == t.resolution
  {
    ToMsb(if bit then t.high else t.low, t.resolution)
  }

  /** Every data bit replaced by one of two symbols. */
  function Encode(data: seq<bool>, one: seq<bool>, zero: seq<bool>): (wire: seq<bool>) {
    if data == [] then []
    else Encode(data[..|data| - 1], one, zero) + if data[|data| - 1] then one else zero
  }

  /** Every data bit replaced by its symbol. */
  function WireBits(data: seq<bool>, t: Timing): (wire: seq<bool>) {
    Encode(data, Symbol(t, true), Symbol(t, false))
  }

  /** Byte `k` of a bit stream, most significant bit first. */
  function ByteAt(bits: seq<bool>, k: nat): Byte
    requires 8 * k + 8 <= |bits|
  {
    FromMsbBound(bits[8 * k..8 * k + 8]);
    assert Pow2(8) == 256 by { assert Pow2(4) == 16; }
    FromMsb(bits[8 * k..8 * k + 8])
  }

  /** The whole bytes of a bit stream. */
  function Pack(bits: seq<bool>): (bytes: Bytes)
    ensures |bytes| == |bits| / 8
  {
    seq(|bits| / 8, k requires 0 <= k < |bits| / 8 => ByteAt(bits, k))
  }

  /** What one LED is sent. */
  function Packet(color: Color, p: Pattern, t: Timing): (bytes: Bytes)
    requires ValidPattern(p)
    ensures |bytes| == TotalBits(p) * t.resolution / 8
  {
    WireLength(DataBits(color, p), t);
    Pack(WireBits(DataBits(color, p), t))
  }

  lemma WireSnoc(data: seq<bool>, bit: bool, t: Timing)
    ensures WireBits(data + [bit], t) == WireBits(data, t) + Symbol(t, bit)
  {
    EncodeSnoc(data, bit, Symbol(t, true), Symbol(t, false));
  }

  lemma EncodeSnoc(data: seq<bool>, bit: bool, one: seq<bool>, zero: seq<bool>)
    ensures Encode(data + [bit], one, zero) == Encode(data, one, zero) + if bit then one else zero
  {
    assert (data + [bit])[..|data|] == data;
  }

  lemma {:induction false} EncodeConcat(a: seq<bool>, b: seq<bool>, one: seq<bool>, zero: seq<bool>)
    ensures Encode(a + b, one, zero) == Encode(a, one, zero) + Encode(b, one, zero)
  {
    if b == [] {
      assert a + b == a;
    } else {
      var init, last := b[..|b| - 1], b[|b| - 1];
      EncodeConcat(a, init, one, zero);
      assert a + b == (a + init) + [last];
      EncodeSnoc(a + init, last, one, zero);
    }
  }

  lemma {:induction false} EncodeLength(data: seq<bool>, one: seq<bool>, zero: seq<bool>)
    requires |one| == |zero|
    ensures |Encode(data, one, zero)| == |data| * |one|
  {
    if data != [] {
      EncodeLength(data[..|data| - 1], one, zero);
      assert |data| * |one| == (|data| - 1) * |one| + |one|;
    }
  }

  lemma WireLength(data: seq<bool>, t: Timing)
    ensures |WireBits(data, t)| == |data| * t.resolution
  {
    EncodeLength(data, Symbol(t, true), Symbol(t, false));
  }

  // ---------------------------------------------------------------- render_led

  /** What a `render_led` has done so far: the bits put out, and the index of each store, in order. */
  datatype Log = Log(bits: seq<bool>, stores: seq<nat>)

  /** Every index below `n` once, in ascending order. */
  function UpTo(n: nat): (s: seq<nat>)
    ensures |s| == n && forall k | 0 <= k < n :: s[k] == k
  {
    seq(n, k => k)
  }

  /** Each whole byte of the bits put out was stored once, in order, and the bytes are those in `buf`. */
  ghost predicate Emitted(buf: array<Byte>, log: Log, byte: nat, filled: nat)
    reads buf
  {
    Holds(buf, log.bits, byte, filled) && log.stores == UpTo(|log.bits| / 8)
  }

  /** `buf` holds the whole bytes of `emitted`, and `byte` its last `filled` bits. */
  ghost predicate Holds(buf: array<Byte>, emitted: seq<bool>, byte: nat, filled: nat)
    reads buf
  {
    && |emitted| <= 8 * buf.Length
    && filled == |emitted| % 8 && byte == FromMsb(emitted[|emitted| - filled..])
    && forall k: nat | k < |emitted| / 8 :: buf[k] == ByteAt(emitted, k)
  }

  lemma ByteAtPrefix(bits: seq<bool>, bit: bool, k: nat)
    requires 8 * k + 8 <= |bits|
    ensures ByteAt(bits + [bit], k) == ByteAt(bits, k)
  {
    assert (bits + [bit])[8 * k..8 * k + 8] == bits[8 * k..8 * k + 8];
  }

  /** Shifting a bit into a byte that is not full yet: `(byte << 1) | bit`. */
  lemma ShiftIn(tail: seq<bool>, bit: bool)
    requires |tail| < 8
    ensures (FromMsb(tail) * 2) % 256 + B(bit) == FromMsb(tail + [bit]) < 256
  {
    assert (tail + [bit])[..|tail|] == tail;
    FromMsbBound(tail);
    Pow2Below256(|tail|);
  }

  lemma Pow2Below256(k: nat)
    requires k < 8
    ensures Pow2(k) <= 128
    decreases 8 - k
  {
    if k == 7 { assert Pow2(3) == 8; } else { Pow2Below256(k + 1); }
  }

  lemma TailOf(emitted: seq<bool>, bit: bool)
    ensures var filled := |emitted| % 8; var tail := emitted[|emitted| - filled..];
      && (emitted + [bit])[|emitted| - filled..] == tail + [bit]
      && (filled == 7 ==> ByteAt(emitted + [bit], |emitted| / 8) == FromMsb(tail + [bit]))
  {
    var filled := |emitted| % 8;
    if filled == 7 {
      var k := |emitted| / 8;
      assert (emitted + [bit])[8 * k..8 * k + 8] == emitted[|emitted| - filled..] + [bit];
    }
  }

  /** One more bit: the byte in progress fills up, or takes it. */
  lemma Advance(n: nat)
    ensures n % 8 == 7 ==> (n + 1) % 8 == 0 && (n + 1) / 8 == n / 8 + 1
    ensures n % 8 != 7 ==> (n + 1) % 8 == n % 8 + 1 && (n + 1) / 8 == n / 8
  {
  }

  lemma ByteInProgress(buf: array<Byte>, log: Log, bit: bool, byte: nat)
    requires |log.bits| < 8 * buf.Length && |log.bits| % 8 != 7 && log.stores == UpTo(|log.bits| / 8)
    requires byte == FromMsb(log.bits[|log.bits| - |log.bits| % 8..] + [bit])
    requires forall k: nat | k < |log.bits| / 8 :: buf[k] == ByteAt(log.bits, k)
    ensures Emitted(buf, Log(log.bits + [bit], log.stores), byte, |log.bits| % 8 + 1)
  {
    Advance(|log.bits|);
    TailOf(log.bits, bit);
    StillEmitted(buf, log.bits, bit);
  }

  /** The byte in progress is full: it is stored. */
  method StoreByte(buf: array<Byte>, at: nat, byte: Byte, ghost log: Log, ghost bit: bool) returns (ghost log': Log)
    requires |log.bits| < 8 * buf.Length && |log.bits| % 8 == 7 && at == |log.bits| / 8
    requires byte == FromMsb(log.bits[|log.bits| - 7..] + [bit]) && log.stores == UpTo(at)
    requires forall k: nat | k < at :: buf[k] == ByteAt(log.bits, k)
    modifies buf
    ensures Emitted(buf, log', 0, 0) && log'.bits == log.bits + [bit]
    ensures forall k | 0 <= k < buf.Length && k != at :: buf[k] == old(buf[k])
  {
    ghost var longer := log.bits + [bit];
    Advance(|log.bits|);
    TailOf(log.bits, bit);
    StillEmitted(buf, log.bits, bit);
    buf[at] := byte;
    log' := Log(longer, log.stores + [at]);
    assert longer[|longer|..] == [];
    assert buf[at] == ByteAt(longer, at);
  }

  /** The innermost step of `render_led`: shifts one bit in, and stores the byte once it is full. */
  method EmitBit(buf: array<Byte>, byte: Byte, filled: nat, pos: nat, bit: bool, ghost log: Log)
      returns (byte': Byte, filled': nat, pos': nat, ghost log': Log)
    requires Emitted(buf, log, byte, filled) && pos == |log.bits| < 8 * buf.Length
    modifies buf
    ensures Emitted(buf, log', byte', filled') && log'.bits == log.bits + [bit] && pos' == pos + 1
    ensures forall k | 0 <= k < buf.Length && k != pos / 8 :: buf[k] == old(buf[k])
  {
    ShiftIn(log.bits[pos - filled..], bit);
    byte' := (byte * 2) % 256 + B(bit);
    filled' := filled + 1;
    pos' := pos + 1;
    if filled' == 8 {
      Advance(pos);
      log' := StoreByte(buf, pos' / 8 - 1, byte', log, bit);
      byte' := 0;
      filled' := 0;
    } else {
      ByteInProgress(buf, log, bit, byte');
      log' := Log(log.bits + [bit], log.stores);
    }
  }

  /** Bytes stored earlier are those of the longer stream. */
  lemma StillEmitted(buf: array<Byte>, emitted: seq<bool>, bit: bool)
    requires |emitted| < 8 * buf.Length
    requires forall k: nat | k < |emitted| / 8 :: buf[k] == ByteAt(emitted, k)
    ensures forall k: nat | k < |emitted| / 8 :: buf[k] == ByteAt(emitted + [bit], k)
  {
    forall k: nat | k < |emitted| / 8 ensures buf[k] == ByteAt(emitted + [bit], k) {
      ByteAtPrefix(emitted, bit, k);
    }
  }

  /** Each channel's bits are among the packet's. */
  lemma {:induction false} TotalBitsPrefix(p: Pattern, i: nat)
    requires i < |p|
    ensures TotalBits(p[..i]) + p[i].1 == TotalBits(p[..i + 1]) <= TotalBits(p)
    decreases |p|
  {
    assert p[..i + 1][..i] == p[..i];
    if i + 1 == |p| {
      assert p[..i + 1] == p;
    } else {
      var init := p[..|p| - 1];
      TotalBitsPrefix(init, i);
      assert init[..i] == p[..i] && init[..i + 1] == p[..i + 1];
    }
  }

  /** There is room for another symbol as long as a data bit is missing. */
  lemma RoomForSymbol(have: nat, total: nat, resolution: nat)
    requires have < total
    ensures have * resolution + resolution <= total * resolution
  {
    MulMonotone(resolution, have + 1, total);
    assert resolution * (have + 1) == have * resolution + resolution;
  }

  /** `bits` are the lowest bits of `n`, most significant first. */
  predicate IsLowBits(n: nat, bits: seq<bool>) {
    forall j: nat | j < |bits| :: bits[|bits| - 1 - j] == Bit(n, j)
  }

  /** The innermost loop of `render_led`: one symbol, most significant bit first. */
  method RenderBits(buf: array<Byte>, len: nat, byte0: Byte, filled0: nat, pos0: nat, symbol: nat, resolution: nat,
                    ghost pattern: seq<bool>, ghost log0: Log)
      returns (byte: Byte, filled: nat, pos: nat, ghost log: Log)
    requires len <= buf.Length && Emitted(buf, log0, byte0, filled0) && pos0 == |log0.bits|
    requires |pattern| == resolution && IsLowBits(symbol, pattern) && |log0.bits| + resolution <= 8 * len
    modifies buf
    ensures Emitted(buf, log, byte, filled) && pos == |log.bits|
    ensures log.bits == log0.bits + pattern
    ensures forall k | len <= k < buf.Length :: buf[k] == old(buf[k])
  {
    byte, filled, pos, log := byte0, filled0, pos0, log0;
    TakeNone(log0.bits, pattern);
    for j := resolution downto 0
      invariant Emitted(buf, log, byte, filled) && pos == |log.bits|
      invariant log.bits == log0.bits + pattern[..resolution - j]
      invariant forall k | len <= k < buf.Length :: buf[k] == old(buf[k])
    {
      TakeOneMore(log0.bits, pattern, resolution - j - 1);
      var bit := Bit(symbol, j);
      byte, filled, pos, log := EmitBit(buf, byte, filled, pos, bit, log);
    }
    assert pattern[..resolution] == pattern;
  }

  /** The symbol of one data bit is emitted most significant bit first. */
  method RenderSymbol(buf: array<Byte>, len: nat, byte0: Byte, filled0: nat, pos0: nat, bit: bool, t: Timing,
                      ghost log0: Log)
      returns (byte: Byte, filled: nat, pos: nat, ghost log: Log)
    requires len <= buf.Length && Emitted(buf, log0, byte0, filled0) && pos0 == |log0.bits|
    requires |log0.bits| + t.resolution <= 8 * len
    modifies buf
    ensures Emitted(buf, log, byte, filled) && pos == |log.bits|
    ensures log.bits == log0.bits + Symbol(t, bit)
    ensures forall k | len <= k < buf.Length :: buf[k] == old(buf[k])
  {
    var symbol := if bit then t.high else t.low;
    byte, filled, pos, log :=
      RenderBits(buf, len, byte0, filled0, pos0, symbol, t.resolution, Symbol(t, bit), log0);
  }

  lemma TakeNone(a: seq<bool>, b: seq<bool>)
    ensures a + b[..0] == a
  {
  }

  lemma TakeOneMore(a: seq<bool>, b: seq<bool>, k: nat)
    requires k < |b|
    ensures a + b[..k + 1] == (a + b[..k]) + [b[k]]
  {
  }

  /** One more data bit of a packet of `total` bits, as its symbol. */
  method RenderDataBit(buf: array<Byte>, len: nat, byte0: Byte, filled0: nat, pos0: nat, bit: bool, t: Timing,
                       ghost log0: Log, ghost data: seq<bool>, ghost total: nat)
      returns (byte: Byte, filled: nat, pos: nat, ghost log: Log)
    requires len <= buf.Length && total * t.resolution == 8 * len && |data| < total
    requires Emitted(buf, log0, byte0, filled0) && pos0 == |log0.bits| && log0.bits == WireBits(data, t)
    modifies buf
    ensures Emitted(buf, log, byte, filled) && pos == |log.bits| && log.bits == WireBits(data + [bit], t)
    ensures forall k | len <= k < buf.Length :: buf[k] == old(buf[k])
  {
    WireLength(data, t);
    RoomForSymbol(|data|, total, t.resolution);
    WireSnoc(data, bit, t);
    byte, filled, pos, log := RenderSymbol(buf, len, byte0, filled0, pos0, bit, t, log0);
  }

  /** The middle loop of `render_led`: one channel's bits, most significant first. */
  method RenderValue(buf: array<Byte>, len: nat, byte0: Byte, filled0: nat, pos0: nat, shifted: nat, bits: nat,
                     t: Timing, ghost msb: seq<bool>, ghost log0: Log, ghost data0: seq<bool>,
                     ghost total: nat)
      returns (byte: Byte, filled: nat, pos: nat, ghost log: Log, ghost data: seq<bool>)
    requires len <= buf.Length && total * t.resolution == 8 * len
    requires Emitted(buf, log0, byte0, filled0) && pos0 == |log0.bits| && log0.bits == WireBits(data0, t)
    requires |msb| == bits && IsLowBits(shifted, msb) && |data0| + bits <= total
    modifies buf
    ensures Emitted(buf, log, byte, filled) && pos == |log.bits|
    ensures data == data0 + msb && log.bits == WireBits(data, t)
    ensures forall k | len <= k < buf.Length :: buf[k] == old(buf[k])
  {
    byte, filled, pos, log, data := byte0, filled0, pos0, log0, data0;
    TakeNone(data0, msb);
    for i := bits downto 0
      invariant Emitted(buf, log, byte, filled) && pos == |log.bits|
      invariant data == data0 + msb[..bits - i] && log.bits == WireBits(data, t)
      invariant forall k | len <= k < buf.Length :: buf[k] == old(buf[k])
    {
      TakeOneMore(data0, msb, bits - i - 1);
      var bit := Bit(shifted, i);
      byte, filled, pos, log := RenderDataBit(buf, len, byte, filled, pos, bit, t, log, data, total);
      data := data + [bit];
    }
    assert msb[..bits] == msb;
  }

  /** One channel: its top bits, as their symbols. */
  method RenderChannel(buf: array<Byte>, len: nat, byte0: Byte, filled0: nat, pos0: nat, shifted: nat, bits: nat,
                       t: Timing, ghost log0: Log, ghost data0: seq<bool>, ghost total: nat)
      returns (byte: Byte, filled: nat, pos: nat, ghost log: Log, ghost data: seq<bool>)
    requires len <= buf.Length && total * t.resolution == 8 * len
    requires Emitted(buf, log0, byte0, filled0) && pos0 == |log0.bits|
    requires log0.bits == WireBits(data0, t) && |data0| + bits <= total
    modifies buf
    ensures Emitted(buf, log, byte, filled) && pos == |log.bits|
    ensures data == data0 + ToMsb(shifted, bits) && log.bits == WireBits(data, t)
    ensures forall k | len <= k < buf.Length :: buf[k] == old(buf[k])
  {
    byte, filled, pos, log, data :=
      RenderValue(buf, len, byte0, filled0, pos0, shifted, bits, t, ToMsb(shifted, bits), log0, data0, total);
  }

  /**
   `render_led`: encodes one LED's colour into the first `len` bytes of `buf`, storing each of them
   exactly once and in order, and writes nothing else. It packs whole bytes as it goes, so the
   packet has to be a whole number of them.
   */
  method RenderLed(buf: array<Byte>, len: nat, color: Color, p: Pattern, t: Timing)
      returns (ghost log: Log)
    requires ValidPattern(p) && ValidTiming(t)
    requires TotalBits(p) * t.resolution == 8 * len && len <= buf.Length
    modifies buf
    ensures buf[..len] == Packet(color, p, t)
    ensures log.bits == WireBits(DataBits(color, p), t) && log.stores == UpTo(len)
    ensures buf[len..] == old(buf[len..])
  {
    var byte, filled, pos := 0, 0, 0;
    log := Log([], []);
    ghost var data: seq<bool> := [];
    for i := 0 to |p|
      invariant Emitted(buf, log, byte, filled) && pos == |log.bits|
      invariant data == DataBits(color, p[..i]) && log.bits == WireBits(data, t)
      invariant forall k | len <= k < buf.Length :: buf[k] == old(buf[k])
    {
      var (channel, bits) := p[i];
      TotalBitsPrefix(p, i);
      byte, filled, pos, log, data :=
        RenderChannel(buf, len, byte, filled, pos, Truncated(channel, bits, color), bits, t,
                      log, data, TotalBits(p));
      assert p[..i + 1][..i] == p[..i];
    }
    assert p[..|p|] == p;
    WireLength(data, t);
    assert buf[..len] == Packet(color, p, t);
  }
}
