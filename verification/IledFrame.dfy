/** What a whole frame means to the chain that receives it. */
module IledFrame {
  import opened Prelude
  import opened Arith
  import opened Bits
  import opened IledChain
  import opened IledWire
  import opened IledDecode
  import opened Iled

  /** A rendered frame: what `Framebuffer.Render` leaves in its buffer. */
  function Frame(c: Config, pixels: seq<bool>): (frame: Bytes)
    requires Valid(c) && |pixels| == MAX_LEDS
  {
    Concat(Packets(c, pixels)) + ZeroBytes(Tail(c))
  }

  /** Whether pixel `(x, y)` is on. */
  predicate IsLit(c: Config, pixels: seq<bool>, x: nat, y: nat)
    requires Valid(c) && |pixels| == MAX_LEDS && x < c.width && y < c.height
  {
    PixelInBounds(c, x, y);
    pixels[y * c.width + x]
  }

  /** The colour pixel `(x, y)` is shown in. */
  function PixelColor(c: Config, pixels: seq<bool>, x: nat, y: nat): Color
    requires Valid(c) && |pixels| == MAX_LEDS && x < c.width && y < c.height
  {
    if IsLit(c, pixels, x, y) then c.onColor else c.offColor
  }

  lemma {:induction false} ConcatLength(parts: seq<Bytes>, b: nat)
    requires forall k | 0 <= k < |parts| :: |parts[k]| == b
    ensures |Concat(parts)| == |parts| * b
  {
    if parts != [] {
      ConcatLength(parts[..|parts| - 1], b);
      assert |parts| * b == (|parts| - 1) * b + b;
    }
  }

  /** Each part is found in its slot of the concatenation. */
  lemma {:induction false} SlotOfConcat(parts: seq<Bytes>, rest: Bytes, b: nat, k: nat)
    requires k < |parts| && forall i | 0 <= i < |parts| :: |parts[i]| == b
    ensures k * b + b <= |Concat(parts) + rest| && Slot(Concat(parts) + rest, b, k) == parts[k]
  {
    var m := |parts| - 1;
    var init := parts[..m];
    ConcatLength(init, b);
    assert Concat(parts) + rest == Concat(init) + (parts[m] + rest);
    if k < m { SlotOfConcat(init, parts[m] + rest, b, k); }
  }

  /** Each LED's packet is found in its slot of the frame. */
  lemma SlotOfFrame(c: Config, pixels: seq<bool>, b: nat, k: nat)
    requires Valid(c) && |pixels| == MAX_LEDS && b == BytesPerLed(c) && k < |Packets(c, pixels)|
    ensures k * b + b <= |Frame(c, pixels)| && Slot(Frame(c, pixels), b, k) == Packets(c, pixels)[k]
  {
    SlotOfConcat(Packets(c, pixels), ZeroBytes(Tail(c)), b, k);
  }

  lemma PacketOfPixel(c: Config, pixels: seq<bool>, x: nat, y: nat)
    requires Valid(c) && |pixels| == MAX_LEDS && x < c.width && y < c.height
    ensures var led := LedIndex(c.layout, x, y, c.width, c.height);
      led < |Packets(c, pixels)| && Packets(c, pixels)[led] == Packet(PixelColor(c, pixels, x, y), c.pattern, c.timing)
  {
    var led := LedIndex(c.layout, x, y, c.width, c.height);
    IndexThenPixel(c.layout, x, y, c.width, c.height);
    assert Packets(c, pixels)[led] == LedPacket(c, pixels, led);
  }

  lemma PixelSlot(c: Config, pixels: seq<bool>, x: nat, y: nat)
    requires Valid(c) && |pixels| == MAX_LEDS && x < c.width && y < c.height
    ensures var led := LedIndex(c.layout, x, y, c.width, c.height); var b := BytesPerLed(c);
      && led * b + b <= |Frame(c, pixels)|
      && Slot(Frame(c, pixels), b, led) == Packet(PixelColor(c, pixels, x, y), c.pattern, c.timing)
  {
    PacketOfPixel(c, pixels, x, y);
    SlotOfFrame(c, pixels, BytesPerLed(c), LedIndex(c.layout, x, y, c.width, c.height));
  }

  /** What the frame holds in the slot `led_index` gives pixel `(x, y)`. */
  function PixelPacket(c: Config, pixels: seq<bool>, x: nat, y: nat): Bytes
    requires Valid(c) && |pixels| == MAX_LEDS && x < c.width && y < c.height
  {
    PixelSlot(c, pixels, x, y);
    Slot(Frame(c, pixels), BytesPerLed(c), LedIndex(c.layout, x, y, c.width, c.height))
  }

  lemma PacketOfColor(c: Config, pixels: seq<bool>, x: nat, y: nat)
    requires Valid(c) && |pixels| == MAX_LEDS && x < c.width && y < c.height
    ensures PixelPacket(c, pixels, x, y) == Packet(PixelColor(c, pixels, x, y), c.pattern, c.timing)
  {
    PixelSlot(c, pixels, x, y);
  }

  /**
   Pixel by pixel: the slot `led_index` gives pixel `(x, y)` decodes to that pixel's colour,
   truncated to each channel's bits, for every accepted configuration with two different symbols
   and every pixel pattern.
   */
  lemma FrameShowsPixel(c: Config, pixels: seq<bool>, x: nat, y: nat)
    requires Valid(c) && |pixels| == MAX_LEDS && c.timing.high != c.timing.low && x < c.width && y < c.height
    ensures var led := LedIndex(c.layout, x, y, c.width, c.height); var b := BytesPerLed(c);
      && led * b + b <= |Frame(c, pixels)|
      && DecodePacket(Slot(Frame(c, pixels), b, led), c.pattern, c.timing)
         == Some(Carried(PixelColor(c, pixels, x, y), c.pattern))
  {
    PixelSlot(c, pixels, x, y);
    PacketDecodes(PixelColor(c, pixels, x, y), c.pattern, c.timing);
  }

  // ---------------------------------------------------------------- the frame as one stream

  /** The data bits of the `k`-th LED. */
  function LedBits(c: Config, pixels: seq<bool>, k: nat): seq<bool>
    requires Valid(c) && |pixels| == MAX_LEDS && k < c.width * c.height
  {
    var (x, y) := PixelAt(c.layout, k, c.width, c.height);
    DataBits(PixelColor(c, pixels, x, y), c.pattern)
  }

  /** The data bits of the first `n` LEDs. */
  function ChainBits(c: Config, pixels: seq<bool>, n: nat): seq<bool>
    requires Valid(c) && |pixels| == MAX_LEDS && n <= c.width * c.height
  {
    if n == 0 then [] else ChainBits(c, pixels, n - 1) + LedBits(c, pixels, n - 1)
  }

  lemma UnpackConcat(a: Bytes, b: Bytes)
    ensures Unpack(a + b) == Unpack(a) + Unpack(b)
  {
    forall i | 0 <= i < 8 * (|a| + |b|) ensures Unpack(a + b)[i] == (Unpack(a) + Unpack(b))[i] {
      if i >= 8 * |a| {
        assert (i - 8 * |a|) / 8 == i / 8 - |a| && (i - 8 * |a|) % 8 == i % 8;
      }
    }
  }

  lemma {:induction false} ZeroHasNoBits(k: nat)
    ensures !Bit(0, k)
  {
    if k > 0 { ZeroHasNoBits(k - 1); }
  }

  lemma UnpackZeros(n: nat)
    ensures Unpack(ZeroBytes(n)) == Zeros(8 * n)
  {
    forall i | 0 <= i < 8 * n ensures !Unpack(ZeroBytes(n))[i] {
      ZeroHasNoBits(7 - i % 8);
    }
  }

  lemma UnpackTail(data: Bytes, n: nat)
    ensures Unpack(data + ZeroBytes(n)) == Unpack(data) + Zeros(8 * n)
  {
    UnpackConcat(data, ZeroBytes(n));
    UnpackZeros(n);
  }

  lemma UnpackPacket(c: Config, pixels: seq<bool>, k: nat)
    requires Valid(c) && |pixels| == MAX_LEDS && k < c.width * c.height
    ensures Unpack(Packets(c, pixels)[k]) == WireBits(LedBits(c, pixels, k), c.timing)
  {
    var data := LedBits(c, pixels, k);
    WireLength(data, c.timing);
    UnpackPack(WireBits(data, c.timing));
    assert Packets(c, pixels)[k] == LedPacket(c, pixels, k) == Pack(WireBits(data, c.timing));
  }

  lemma {:induction false} UnpackParts(c: Config, pixels: seq<bool>, parts: seq<Bytes>, n: nat)
    requires Valid(c) && |pixels| == MAX_LEDS && n <= c.width * c.height == |parts|
    requires forall k: nat | k < |parts| :: Unpack(parts[k]) == WireBits(LedBits(c, pixels, k), c.timing)
    ensures Unpack(Concat(parts[..n])) == WireBits(ChainBits(c, pixels, n), c.timing)
  {
    if n > 0 {
      UnpackParts(c, pixels, parts, n - 1);
      assert parts[..n][..n - 1] == parts[..n - 1];
      UnpackConcat(Concat(parts[..n - 1]), parts[n - 1]);
      EncodeConcat(ChainBits(c, pixels, n - 1), LedBits(c, pixels, n - 1),
                   Symbol(c.timing, true), Symbol(c.timing, false));
    }
  }

  lemma UnpackPackets(c: Config, pixels: seq<bool>)
    requires Valid(c) && |pixels| == MAX_LEDS
    ensures Unpack(Concat(Packets(c, pixels))) == WireBits(ChainBits(c, pixels, c.width * c.height), c.timing)
  {
    var packets := Packets(c, pixels);
    forall k: nat | k < |packets| ensures Unpack(packets[k]) == WireBits(LedBits(c, pixels, k), c.timing) {
      UnpackPacket(c, pixels, k);
    }
    UnpackParts(c, pixels, packets, |packets|);
    assert packets[..|packets|] == packets;
  }

  /**
   A frame is one stream of symbols, from the first LED's first bit to the last LED's last, and
   low after it: what holds of streams, like one rising edge per data bit and runs that keep their
   length, holds across LEDs and into the reset tail.
   */
  lemma FrameIsOneStream(c: Config, pixels: seq<bool>)
    requires Valid(c) && |pixels| == MAX_LEDS
    ensures Unpack(Frame(c, pixels)) ==
      Encode(ChainBits(c, pixels, c.width * c.height), Symbol(c.timing, true), Symbol(c.timing, false))
      + Zeros(8 * Tail(c))
  {
    StreamOf(c, pixels, Tail(c));
  }

  /** The packets and a tail of any length. */
  lemma StreamOf(c: Config, pixels: seq<bool>, tail: nat)
    requires Valid(c) && |pixels| == MAX_LEDS
    ensures Unpack(Concat(Packets(c, pixels)) + ZeroBytes(tail)) ==
      Encode(ChainBits(c, pixels, c.width * c.height), Symbol(c.timing, true), Symbol(c.timing, false))
      + Zeros(8 * tail)
  {
    UnpackPackets(c, pixels);
    UnpackTail(Concat(Packets(c, pixels)), tail);
  }

  /** A whole frame of pulse symbols rises exactly once per data bit, and nowhere in its tail. */
  lemma FrameRisesOncePerBit(c: Config, pixels: seq<bool>, ah: nat, al: nat, i: nat)
    requires Valid(c) && |pixels| == MAX_LEDS
    requires IsPulse(Symbol(c.timing, true), ah) && IsPulse(Symbol(c.timing, false), al)
    ensures Rises(Unpack(Frame(c, pixels)), i) <==> i < 8 * DataLen(c) && i % c.timing.resolution == 0
  {
    var data, one, zero := ChainBits(c, pixels, c.width * c.height), Symbol(c.timing, true), Symbol(c.timing, false);
    FrameIsOneStream(c, pixels);
    OneRisingEdgePerBit(data, one, zero, 8 * Tail(c), ah, al, i);
    StreamLength(c, pixels);
  }

  /**
   In a whole frame of pulse symbols, the high run of each data bit starts with its symbol, is exactly
   as long as that symbol's, and is the only one before the next symbol, across LEDs; in the tail the
   line stays low.
   */
  lemma FrameRunsKeepTheirLength(c: Config, pixels: seq<bool>, ah: nat, al: nat, q: nat, start: nat)
    requires Valid(c) && |pixels| == MAX_LEDS && start == q * c.timing.resolution
    requires IsPulse(Symbol(c.timing, true), ah) && IsPulse(Symbol(c.timing, false), al)
    ensures var data := ChainBits(c, pixels, c.width * c.height);
      && |data| * c.timing.resolution == 8 * DataLen(c)
      && OneRun(Unpack(Frame(c, pixels)), start, if q < |data| then HighTime(data[q], ah, al) else 0,
                c.timing.resolution)
  {
    var data, one, zero := ChainBits(c, pixels, c.width * c.height), Symbol(c.timing, true), Symbol(c.timing, false);
    FrameIsOneStream(c, pixels);
    StreamLength(c, pixels);
    EncodeLength(data, one, zero);
    SymbolIsOneRun(data, one, zero, 8 * Tail(c), ah, al, q, start);
  }

  lemma StreamLength(c: Config, pixels: seq<bool>)
    requires Valid(c) && |pixels| == MAX_LEDS
    ensures |Encode(ChainBits(c, pixels, c.width * c.height), Symbol(c.timing, true), Symbol(c.timing, false))|
         == 8 * DataLen(c)
  {
    UnpackPackets(c, pixels);
    ConcatLength(Packets(c, pixels), BytesPerLed(c));
  }
}
