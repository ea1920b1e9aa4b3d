/** What a receiver gets out of the wire encoding: the colours back, and clean pulses. */
module IledDecode {
  import opened Prelude
  import opened Arith
  import opened Bits
  import opened IledWire

  // ---------------------------------------------------------------- the colours

  /** The bits of a byte string, most significant first. */
  function Unpack(bytes: Bytes): (bits: seq<bool>)
    ensures |bits| == 8 * |bytes|
  {
    seq(8 * |bytes|, i requires 0 <= i < 8 * |bytes| => Bit(bytes[i / 8], 7 - i % 8))
  }

  lemma UnpackPack(bits: seq<bool>)
    requires |bits| % 8 == 0
    ensures Unpack(Pack(bits)) == bits
  {
    forall i | 0 <= i < |bits| ensures Unpack(Pack(bits))[i] == bits[i] {
      var k := i / 8;
      var slice := bits[8 * k..8 * k + 8];
      ToMsbFromMsb(slice);
      assert ToMsb(FromMsb(slice), 8)[i % 8] == slice[i % 8] == bits[i];
      assert Pack(bits)[k] == FromMsb(slice);
    }
    assert |Unpack(Pack(bits))| == |bits|;
  }

  lemma ByteRoundTrip(byte: Byte)
    ensures FromMsb(ToMsb(byte, 8)) == byte
  {
    assert Pow2(8) == 256 by { assert Pow2(4) == 16; }
    FromMsbToMsb(byte, 8);
  }

  lemma UnpackedByte(bytes: Bytes, k: nat)
    requires k < |bytes|
    ensures Unpack(bytes)[8 * k..8 * k + 8] == ToMsb(bytes[k], 8)
  {
  }

  lemma PackUnpack(bytes: Bytes)
    ensures Pack(Unpack(bytes)) == bytes
  {
    forall k | 0 <= k < |bytes| ensures Pack(Unpack(bytes))[k] == bytes[k] {
      UnpackedByte(bytes, k);
      ByteRoundTrip(bytes[k]);
    }
  }

  /** Reads a stream of symbols of the length of `one`: each is a "1" if it is that one. */
  function DecodeData(wire: seq<bool>, one: seq<bool>): (data: seq<bool>)
    requires |one| > 0
    decreases |wire|
  {
    if |wire| < |one| then []
    else DecodeData(wire[..|wire| - |one|], one) + [wire[|wire| - |one|..] == one]
  }

  /** Reading the last symbol of a stream. */
  lemma LastSymbol(front: seq<bool>, symbol: seq<bool>, one: seq<bool>)
    requires |symbol| == |one| > 0
    ensures DecodeData(front + symbol, one) == DecodeData(front, one) + [symbol == one]
  {
    assert (front + symbol)[..|front|] == front && (front + symbol)[|front|..] == symbol;
  }

  /** One more data bit, encoded and decoded. */
  lemma OneMoreBit(init: seq<bool>, bit: bool, one: seq<bool>, zero: seq<bool>)
    requires |one| == |zero| > 0 && one != zero
    ensures DecodeData(Encode(init + [bit], one, zero), one) == DecodeData(Encode(init, one, zero), one) + [bit]
  {
    assert (init + [bit])[..|init|] == init;
    LastSymbol(Encode(init, one, zero), if bit then one else zero, one);
  }

  /** Two different symbols of one length can be told apart in any stream of them. */
  lemma {:induction false} DecodeEncode(data: seq<bool>, one: seq<bool>, zero: seq<bool>)
    requires |one| == |zero| > 0 && one != zero
    ensures DecodeData(Encode(data, one, zero), one) == data
  {
    if data != [] {
      var init, last := data[..|data| - 1], data[|data| - 1];
      assert data == init + [last];
      DecodeEncode(init, one, zero);
      OneMoreBit(init, last, one, zero);
    }
  }

  /** The two symbols differ exactly when their patterns do. */
  lemma SymbolsDiffer(t: Timing)
    requires ValidTiming(t)
    ensures Symbol(t, true) != Symbol(t, false) <==> t.high != t.low
  {
    FromMsbToMsb(t.high, t.resolution);
    FromMsbToMsb(t.low, t.resolution);
  }

  /** Cuts data bits into the channels' values. */
  function DecodeChannels(data: seq<bool>, p: Pattern): (values: seq<nat>)
    requires |data| == TotalBits(p)
    ensures |values| == |p|
    decreases |p|
  {
    if p == [] then []
    else
      var bits := p[|p| - 1].1;
      DecodeChannels(data[..|data| - bits], p[..|p| - 1]) + [FromMsb(data[|data| - bits..])]
  }

  lemma TruncatedFits(ch: Channel, bits: nat, color: Color)
    requires bits <= MAX_CHANNEL_BITS
    ensures Truncated(ch, bits, color) < Pow2(bits)
  {
    assert Pow2(8) == 256 by { assert Pow2(4) == 16; }
    ShiftRightBound(RawValue(ch, color), bits, MAX_CHANNEL_BITS - bits);
  }

  /** A colour as far as a packet carries it: each channel's top bits. */
  function Carried(color: Color, p: Pattern): (values: seq<nat>)
    requires forall i | 0 <= i < |p| :: p[i].1 <= MAX_CHANNEL_BITS
    ensures |values| == |p|
  {
    seq(|p|, i requires 0 <= i < |p| => Truncated(p[i].0, p[i].1, color))
  }

  /** Cutting off the last channel's bits. */
  lemma LastChannel(front: seq<bool>, last: seq<bool>, p: Pattern)
    requires p != [] && |front| == TotalBits(p[..|p| - 1]) && |last| == p[|p| - 1].1
    ensures |front + last| == TotalBits(p)
    ensures DecodeChannels(front + last, p) == DecodeChannels(front, p[..|p| - 1]) + [FromMsb(last)]
  {
    assert (front + last)[..|front|] == front && (front + last)[|front|..] == last;
  }

  lemma CarriedSnoc(color: Color, p: Pattern)
    requires p != [] && forall i | 0 <= i < |p| :: p[i].1 <= MAX_CHANNEL_BITS
    ensures Carried(color, p) ==
      Carried(color, p[..|p| - 1]) + [Truncated(p[|p| - 1].0, p[|p| - 1].1, color)]
  {
  }

  lemma {:induction false} DecodeDataBits(color: Color, p: Pattern)
    requires forall i | 0 <= i < |p| :: p[i].1 <= MAX_CHANNEL_BITS
    ensures DecodeChannels(DataBits(color, p), p) == Carried(color, p)
  {
    if p != [] {
      var init := p[..|p| - 1];
      var (ch, bits) := p[|p| - 1];
      DecodeDataBits(color, init);
      TruncatedFits(ch, bits, color);
      FromMsbToMsb(Truncated(ch, bits, color), bits);
      LastChannel(DataBits(color, init), ToMsb(Truncated(ch, bits, color), bits), p);
      CarriedSnoc(color, p);
    }
  }

  /** A receiver for one LED. */
  function DecodePacket(bytes: Bytes, p: Pattern, t: Timing): Option<seq<nat>> {
    if t.resolution == 0 then None
    else
      var data := DecodeData(Unpack(bytes), Symbol(t, true));
      if |data| == TotalBits(p) then Some(DecodeChannels(data, p)) else None
  }

  /**
   With two different symbols, every channel's truncated value is recovered from an LED's packet:
   the encoding loses nothing but the low bits a channel does not ask for.
   */
  lemma PacketDecodes(color: Color, p: Pattern, t: Timing)
    requires ValidPattern(p) && ValidTiming(t) && t.high != t.low && (TotalBits(p) * t.resolution) % 8 == 0
    ensures DecodePacket(Packet(color, p, t), p, t) == Some(Carried(color, p))
  {
    var data := DataBits(color, p);
    WireLength(data, t);
    UnpackPack(WireBits(data, t));
    SymbolsDiffer(t);
    DecodeEncode(data, Symbol(t, true), Symbol(t, false));
    DecodeDataBits(color, p);
  }

  /**
   What a channel's value is: the colour's component of that name, without the low bits the channel
   does not ask for.
   */
  lemma PacketCarries(color: Color, p: Pattern, t: Timing, i: nat)
    requires ValidPattern(p) && ValidTiming(t) && t.high != t.low && (TotalBits(p) * t.resolution) % 8 == 0
    requires i < |p|
    ensures var decoded := DecodePacket(Packet(color, p, t), p, t);
      decoded.Some? && |decoded.value| == |p| && Carries(decoded.value[i], p[i], color)
  {
    PacketDecodes(color, p, t);
    ShiftRightQuotient(RawValue(p[i].0, color), MAX_CHANNEL_BITS - p[i].1);
  }

  /** `value` is the top bits of the component that the pattern's entry names. */
  predicate Carries(value: nat, entry: (Channel, nat), color: Color)
    requires entry.1 <= MAX_CHANNEL_BITS
  {
    var unit := Pow2(MAX_CHANNEL_BITS - entry.1);
    && (entry.0 == Red ==> value == color.r / unit)
    && (entry.0 == Green ==> value == color.g / unit)
    && (entry.0 == Blue ==> value == color.b / unit)
    && (entry.0 == WarmWhite ==> value == color.w / unit)
    && (entry.0 == ColdWhite ==> value == color.c / unit)
  }

  /** With equal patterns nothing is recovered: every colour is sent as the same packet. */
  lemma EqualPatternsCollapse(a: Color, b: Color, p: Pattern, t: Timing)
    requires ValidPattern(p) && t.high == t.low
    ensures Packet(a, p, t) == Packet(b, p, t)
  {
    EqualSymbolsCollapse(DataBits(a, p), DataBits(b, p), Symbol(t, true));
  }

  lemma {:induction false} EqualSymbolsCollapse(a: seq<bool>, b: seq<bool>, symbol: seq<bool>)
    requires |a| == |b|
    ensures Encode(a, symbol, symbol) == Encode(b, symbol, symbol)
  {
    if a != [] { EqualSymbolsCollapse(a[..|a| - 1], b[..|b| - 1], symbol); }
  }

  // ---------------------------------------------------------------- the pulses

  /** A symbol that is high for `high` sub-bits and then low. */
  predicate IsPulse(s: seq<bool>, high: nat) {
    1 <= high < |s| && forall j | 0 <= j < |s| :: s[j] == (j < high)
  }

  /** The line's level: the stream, and low before and after it. */
  predicate Level(stream: seq<bool>, i: int) {
    0 <= i < |stream| && stream[i]
  }

  predicate Rises(stream: seq<bool>, i: int) {
    Level(stream, i) && !Level(stream, i - 1)
  }

  function Zeros(n: nat): (z: seq<bool>)
    ensures |z| == n && forall i | 0 <= i < n :: !z[i]
  {
    seq(n, _ => false)
  }

  /** How long a data bit's pulse is. */
  function HighTime(bit: bool, ah: nat, al: nat): nat {
    if bit then ah else al
  }

  /** Where each symbol of a stream lies. */
  lemma {:induction false} EncodeAt(data: seq<bool>, one: seq<bool>, zero: seq<bool>, k: nat, j: nat)
    requires k < |data| && |one| == |zero| && j < |one|
    ensures 0 <= k * |one| + j < |Encode(data, one, zero)|
    ensures Encode(data, one, zero)[k * |one| + j] == if data[k] then one[j] else zero[j]
  {
    var init := data[..|data| - 1];
    EncodeLength(init, one, zero);
    if k < |init| { EncodeAt(init, one, zero, k, j); }
  }

  /**
   Each high run is exactly as long as its own symbol's: it fills the symbol's high time and the
   line is low right after, so no two runs ever merge.
   */
  lemma RunsKeepTheirLength(
      data: seq<bool>, one: seq<bool>, zero: seq<bool>, tail: nat, ah: nat, al: nat, k: nat, j: nat)
    requires |one| == |zero| && IsPulse(one, ah) && IsPulse(zero, al)
    requires k < |data| && j < |one|
    ensures Level(Encode(data, one, zero) + Zeros(tail), k * |one| + j) <==> j < HighTime(data[k], ah, al)
  {
    EncodeAt(data, one, zero, k, j);
  }

  /** Sub-bit `m` of the symbol that starts at `start`, or of the tail when there are fewer symbols. */
  lemma LevelAt(data: seq<bool>, one: seq<bool>, zero: seq<bool>, tail: nat, ah: nat, al: nat,
                q: nat, start: nat, m: nat)
    requires |one| == |zero| && IsPulse(one, ah) && IsPulse(zero, al) && m < |one| && start == q * |one|
    ensures Level(Encode(data, one, zero) + Zeros(tail), start + m) <==> q < |data| && m < HighTime(data[q], ah, al)
    ensures start + m < |Encode(data, one, zero)| <==> q < |data|
  {
    EncodeLength(data, one, zero);
    if q < |data| {
      EncodeAt(data, one, zero, q, m);
    } else {
      MulMonotone(|one|, |data|, q);
      assert |one| * |data| == |data| * |one| && |one| * q == q * |one|;
    }
  }

  lemma PreviousSymbol(q: nat, r: nat)
    requires q > 0
    ensures (q - 1) * r == q * r - r && q * r >= r
  {
    MulMonotone(r, 1, q);
  }

  /** Inside a symbol nothing rises: where it is high, it was high before. */
  lemma NoRiseInside(data: seq<bool>, one: seq<bool>, zero: seq<bool>, tail: nat, ah: nat, al: nat,
                     q: nat, start: nat, m: nat)
    requires |one| == |zero| && IsPulse(one, ah) && IsPulse(zero, al) && 0 < m < |one| && start == q * |one|
    ensures !Rises(Encode(data, one, zero) + Zeros(tail), start + m)
  {
    LevelAt(data, one, zero, tail, ah, al, q, start, m);
    LevelAt(data, one, zero, tail, ah, al, q, start, m - 1);
  }

  /** The line is low right before a symbol. */
  lemma LowBefore(data: seq<bool>, one: seq<bool>, zero: seq<bool>, tail: nat, ah: nat, al: nat, q: nat, start: nat)
    requires |one| == |zero| && IsPulse(one, ah) && IsPulse(zero, al) && start == q * |one|
    ensures !Level(Encode(data, one, zero) + Zeros(tail), start - 1)
  {
    if q > 0 {
      PreviousSymbol(q, |one|);
      LevelAt(data, one, zero, tail, ah, al, q - 1, start - |one|, |one| - 1);
    }
  }

  /** The line rises where a symbol starts, and not where the tail does. */
  lemma RisesAtStart(data: seq<bool>, one: seq<bool>, zero: seq<bool>, tail: nat, ah: nat, al: nat, q: nat, start: nat)
    requires |one| == |zero| && IsPulse(one, ah) && IsPulse(zero, al) && start == q * |one|
    ensures Rises(Encode(data, one, zero) + Zeros(tail), start) <==> q < |data|
  {
    LevelAt(data, one, zero, tail, ah, al, q, start, 0);
    LowBefore(data, one, zero, tail, ah, al, q, start);
  }

  /**
   If both symbols are pulses, any stream rises exactly once per data bit, at the start of its
   symbol, also across symbol and LED boundaries and into the reset tail.
   */
  lemma OneRisingEdgePerBit(data: seq<bool>, one: seq<bool>, zero: seq<bool>, tail: nat, ah: nat, al: nat, i: nat)
    requires |one| == |zero| > 0 && IsPulse(one, ah) && IsPulse(zero, al)
    ensures Rises(Encode(data, one, zero) + Zeros(tail), i) <==> i < |Encode(data, one, zero)| && i % |one| == 0
  {
    var q, m := Quotient(i, |one|);
    if m > 0 {
      NoRiseInside(data, one, zero, tail, ah, al, q, i - m, m);
    } else {
      RisesAtStart(data, one, zero, tail, ah, al, q, i);
      LevelAt(data, one, zero, tail, ah, al, q, i, 0);
    }
  }

  /** From `start`, `r` sub-bits hold one high run, of `high` sub-bits, that joins no earlier one; then low. */
  predicate OneRun(stream: seq<bool>, start: nat, high: nat, r: nat) {
    && high < r && !Level(stream, start - 1)
    && forall i | start <= i < start + r :: Level(stream, i) <==> i < start + high
  }

  lemma SymbolIsOneRun(data: seq<bool>, one: seq<bool>, zero: seq<bool>, tail: nat, ah: nat, al: nat,
                       q: nat, start: nat)
    requires |one| == |zero| && IsPulse(one, ah) && IsPulse(zero, al) && start == q * |one|
    ensures OneRun(Encode(data, one, zero) + Zeros(tail), start,
                   if q < |data| then HighTime(data[q], ah, al) else 0, |one|)
  {
    forall i | start <= i < start + |one|
      ensures Level(Encode(data, one, zero) + Zeros(tail), i) <==>
        i < start + if q < |data| then HighTime(data[q], ah, al) else 0
    {
      LevelAt(data, one, zero, tail, ah, al, q, start, i - start);
    }
    LowBefore(data, one, zero, tail, ah, al, q, start);
  }

  /** The default symbols, "1110" and "1000", are pulses of three and one sub-bits. */
  lemma DefaultSymbolsArePulses()
    ensures var t := Timing(0xE, 0x8, 4, 1250, 600);
      ValidTiming(t) && t.high != t.low && IsPulse(Symbol(t, true), 3) && IsPulse(Symbol(t, false), 1)
  {
    assert Pow2(4) == 16;
  }
}
