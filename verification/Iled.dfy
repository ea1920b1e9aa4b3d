/**
 The LED chain's frame (src/iled.rs): its configuration, the fixed frame size, and `Framebuffer`,
 which flattens on/off pixels into one packet per LED in chain order.
 */
module Iled {
  import opened Prelude
  import opened Arith
  import opened Bits
  import opened IledChain
  import opened IledWire
  import opened IledDecode

  const MAX_LEDS := 128

  datatype Config = Config(
    width: nat, height: nat, layout: Layout, onColor: Color, offColor: Color, timing: Timing, pattern: Pattern)

  /** The configurations `IledConfig::parse` accepts. */
  predicate Valid(c: Config) {
    && 1 <= c.width && 1 <= c.height && c.width * c.height <= MAX_LEDS
    && ValidTiming(c.timing) && ValidPattern(c.pattern)
    && (TotalBits(c.pattern) * c.timing.resolution) % 8 == 0
  }

  function BytesPerLed(c: Config): nat {
    TotalBits(c.pattern) * c.timing.resolution / 8
  }

  // ---------------------------------------------------------------- how large a frame is

  function DivCeil(a: nat, b: nat): nat
    requires b > 0
  {
    (a + b - 1) / b
  }

  const MAX_BYTES_PER_LED := (MAX_COLOR_CHANNELS * MAX_CHANNEL_BITS * MAX_RESOLUTION + 7) / 8
  const MAX_BIT_RATE_HZ := MAX_RESOLUTION * 1_000_000_000 / MIN_PATTERN_NS
  const MAX_RESET_BYTES := MAX_BIT_RATE_HZ * MAX_RESET_NS / 1_000_000_000 / 8
  const MIN_FRAME_LEN := MAX_LEDS * MAX_BYTES_PER_LED + MAX_RESET_BYTES
  const I2S_DMA_BUFFER_MAX := 4092
  const DMA_BUFFERS_PER_FRAME := DivCeil(MIN_FRAME_LEN, I2S_DMA_BUFFER_MAX)
  const DMA_BUFFER_LEN := DivCeil(DivCeil(MIN_FRAME_LEN, DMA_BUFFERS_PER_FRAME), 4) * 4
  const FRAME_LEN := DMA_BUFFER_LEN * DMA_BUFFERS_PER_FRAME

  /** `bit_rate_hz`. */
  function BitRateHz(t: Timing): nat
    requires t.patternNs > 0
  {
    t.resolution * 1_000_000_000 / t.patternNs
  }

  /** `sample_rate_hz`: the I2S peripheral clocks sixteen bits per sample. */
  function SampleRateHz(t: Timing): nat
    requires t.patternNs > 0
  {
    BitRateHz(t) / 16
  }

  /**
   The rates are the nearest below: `resolution` sub-bits per `pattern_ns`, to within one per second, and
   sixteen of them per sample, to within one sample per second.
   */
  lemma RateMeaning(t: Timing)
    requires ValidTiming(t)
    ensures var rate := BitRateHz(t);
      && rate * t.patternNs <= t.resolution * 1_000_000_000 < (rate + 1) * t.patternNs
      && 16 * SampleRateHz(t) <= rate < 16 * (SampleRateHz(t) + 1)
  {
    var n := t.resolution * 1_000_000_000;
    var rate, r := Quotient(n, t.patternNs);
    assert (rate + 1) * t.patternNs == rate * t.patternNs + t.patternNs;
  }

  /** How much of a frame the LEDs' data takes. */
  function DataLen(c: Config): nat {
    c.width * c.height * BytesPerLed(c)
  }

  lemma PacketSize(c: Config)
    requires Valid(c)
    ensures BytesPerLed(c) <= MAX_BYTES_PER_LED && TotalBits(c.pattern) * c.timing.resolution == 8 * BytesPerLed(c)
  {
    TotalBitsBound(c.pattern);
    MulMonotone(TotalBits(c.pattern), c.timing.resolution, MAX_RESOLUTION);
  }

  /** A frame is a whole number of DMA buffers, each within the hardware's limits. */
  lemma FrameIsWholeBuffers()
    ensures FRAME_LEN % DMA_BUFFER_LEN == 0 && DMA_BUFFER_LEN <= I2S_DMA_BUFFER_MAX && DMA_BUFFER_LEN % 4 == 0
    ensures MIN_FRAME_LEN <= FRAME_LEN
  {
    assert MIN_FRAME_LEN == 6120 && DMA_BUFFERS_PER_FRAME == 2 && DMA_BUFFER_LEN == 3060;
  }

  /** The LED data of every accepted configuration fits, and leaves room for the longest reset. */
  lemma DataFits(c: Config)
    requires Valid(c)
    ensures DataLen(c) <= MAX_LEDS * MAX_BYTES_PER_LED && DataLen(c) + MAX_RESET_BYTES <= FRAME_LEN
  {
    PacketSize(c);
    MulMonotone(c.width * c.height, BytesPerLed(c), MAX_BYTES_PER_LED);
    MulMonotone(MAX_BYTES_PER_LED, c.width * c.height, MAX_LEDS);
    FrameIsWholeBuffers();
  }

  /**
   The zero tail of a frame lasts at least `reset_ns`, for every accepted configuration: at the
   nominal rate of `resolution` sub-bits per `pattern_ns`, and at the rate the truncated sample
   rate gives (a tail of n bits lasts n / rate).
   */
  lemma TailCoversReset(c: Config)
    requires Valid(c)
    ensures var tailBits := 8 * (FRAME_LEN - DataLen(c));
      && c.timing.resetNs * c.timing.resolution <= tailBits * c.timing.patternNs
      && c.timing.resetNs * (16 * SampleRateHz(c.timing)) <= tailBits * 1_000_000_000
  {
    DataFits(c);
    var t := c.timing;
    var tailBits := 8 * (FRAME_LEN - DataLen(c));
    assert tailBits >= 8000;
    MulMonotone(t.resolution, t.resetNs, MAX_RESET_NS);
    MulMonotone(t.patternNs, 8000, tailBits);
    assert t.resetNs * t.resolution <= 8_000_000 <= 8000 * t.patternNs;
    RateBound(t);
    var rate := 16 * SampleRateHz(t);
    MulMonotone(rate, t.resetNs, MAX_RESET_NS);
    assert MAX_RESET_NS * rate <= 8000 * 1_000_000_000;
  }

  /** How many zero bytes follow the LEDs' data. */
  function Tail(c: Config): (n: nat)
    requires Valid(c)
    ensures n == FRAME_LEN - DataLen(c)
  {
    DataFits(c);
    FRAME_LEN - DataLen(c)
  }

  lemma RateBound(t: Timing)
    requires ValidTiming(t)
    ensures 16 * SampleRateHz(t) <= BitRateHz(t) <= MAX_BIT_RATE_HZ
  {
    QuotientBound(t.resolution * 1_000_000_000, t.patternNs, MIN_PATTERN_NS);
  }

  lemma QuotientBound(n: nat, d: nat, least: nat)
    requires 0 < least <= d
    ensures least * (n / d) <= n
  {
    assert n == d * (n / d) + n % d;
    MulMonotone(n / d, least, d);
  }

  // ---------------------------------------------------------------- what a frame holds

  /** The packet of the pixel that the `k`-th LED of the chain shows. */
  function LedPacket(c: Config, pixels: seq<bool>, k: nat): (packet: Bytes)
    requires Valid(c) && |pixels| == MAX_LEDS && k < c.width * c.height
    ensures |packet| == BytesPerLed(c)
  {
    var (x, y) := PixelAt(c.layout, k, c.width, c.height);
    PixelInBounds(c, x, y);
    Packet(if pixels[y * c.width + x] then c.onColor else c.offColor, c.pattern, c.timing)
  }

  lemma PixelInBounds(c: Config, x: nat, y: nat)
    requires c.width * c.height <= MAX_LEDS && x < c.width && y < c.height
    ensures y * c.width + x < MAX_LEDS
  {
    MulMonotone(c.width, y + 1, c.height);
    assert c.width * (y + 1) == y * c.width + c.width;
  }

  /** One packet per LED, in chain order. */
  function Packets(c: Config, pixels: seq<bool>): (packets: seq<Bytes>)
    requires Valid(c) && |pixels| == MAX_LEDS
    ensures |packets| == c.width * c.height
    ensures forall k | 0 <= k < |packets| :: |packets[k]| == BytesPerLed(c)
  {
    seq(c.width * c.height, k requires 0 <= k < c.width * c.height => LedPacket(c, pixels, k))
  }

  function Concat(parts: seq<Bytes>): Bytes {
    if parts == [] then [] else Concat(parts[..|parts| - 1]) + parts[|parts| - 1]
  }

  function ZeroBytes(n: nat): (z: Bytes)
    ensures |z| == n
  {
    seq(n, _ => 0)
  }

  /** The `k`-th of the frame's slots of `b` bytes. */
  function Slot(frame: Bytes, b: nat, k: nat): Bytes
    requires k * b + b <= |frame|
  {
    frame[k * b..k * b + b]
  }

  lemma SlotFits(b: nat, k: nat, n: nat)
    requires k < n
    ensures k * b + b <= n * b
  {
    MulMonotone(b, k + 1, n);
    assert b * (k + 1) == k * b + b;
  }

  /** Slots that hold the given parts hold their concatenation. */
  lemma {:induction false} SlotsConcat(frame: Bytes, b: nat, parts: seq<Bytes>)
    requires |parts| * b <= |frame|
    requires forall k: nat | k < |parts| :: k * b + b <= |frame| && Slot(frame, b, k) == parts[k]
    ensures frame[..|parts| * b] == Concat(parts)
  {
    if parts != [] {
      var m := |parts| - 1;
      var init := parts[..m];
      SlotFits(b, m, |parts|);
      assert |parts| * b == m * b + b;
      SlotsConcat(frame, b, init);
      assert frame[..m * b + b] == frame[..m * b] + Slot(frame, b, m);
    }
  }

  /** Replacing one slot keeps every other one, and what follows them all. */
  lemma ReplaceSlot(frame: Bytes, next: Bytes, b: nat, led: nat, part: Bytes, n: nat)
    requires led < n && n * b <= |frame| && |part| == b && led * b + b <= |frame|
    requires next == frame[..led * b] + part + frame[led * b + b..]
    ensures |next| == |frame| && next[n * b..] == frame[n * b..] && Slot(next, b, led) == part
    ensures forall k: nat | k < n && k != led :: k * b + b <= |frame| && Slot(next, b, k) == Slot(frame, b, k)
  {
    SlotFits(b, led, n);
    forall k: nat | k < n && k != led
      ensures k * b + b <= |frame| && Slot(next, b, k) == Slot(frame, b, k)
    {
      SlotFits(b, k, n);
      if k < led { SlotFits(b, k, led); } else { SlotFits(b, led, k); }
    }
  }

  /** Pixel `p` comes before `(x, y)` in row-major order. */
  predicate Before(p: (nat, nat), x: nat, y: nat) {
    p.1 < y || (p.1 == y && p.0 < x)
  }

  /** The slots of the pixels rendered so far hold their packets, and the rest of the frame is zero. */
  ghost predicate Rendered(frame: Bytes, c: Config, packets: seq<Bytes>, b: nat, x: nat, y: nat)
    requires |packets| == c.width * c.height
  {
    && |packets| * b <= |frame|
    && frame[|packets| * b..] == ZeroBytes(|frame| - |packets| * b)
    && forall k: nat | k < |packets| ::
         && k * b + b <= |frame|
         && (Before(PixelAt(c.layout, k, c.width, c.height), x, y) ==> Slot(frame, b, k) == packets[k])
  }

  /** Storing one more packet keeps every other slot and the tail. */
  lemma RenderOne(frame: Bytes, next: Bytes, c: Config, packets: seq<Bytes>, b: nat, x: nat, y: nat,
                  led: nat, at: nat)
    requires |packets| == c.width * c.height && x < c.width && y < c.height
    requires Rendered(frame, c, packets, b, x, y)
    requires led == LedIndex(c.layout, x, y, c.width, c.height) && led < |packets| && |packets[led]| == b
    requires at == led * b && at + b <= |frame|
    requires next == frame[..at] + packets[led] + frame[at + b..]
    ensures Rendered(next, c, packets, b, x + 1, y)
  {
    ReplaceSlot(frame, next, b, led, packets[led], |packets|);
    forall k: nat | k < |packets| && Before(PixelAt(c.layout, k, c.width, c.height), x + 1, y)
      ensures Slot(next, b, k) == packets[k]
    {
      PixelThenIndex(c.layout, k, c.width, c.height);
    }
  }

  /** Once every pixel is rendered, the frame holds the packets in chain order, and zeros after them. */
  lemma AllRendered(frame: Bytes, c: Config, packets: seq<Bytes>, b: nat)
    requires |packets| == c.width * c.height && Rendered(frame, c, packets, b, 0, c.height)
    ensures |packets| * b <= |frame| && frame[..|packets| * b] == Concat(packets)
    ensures frame[|packets| * b..] == ZeroBytes(|frame| - |packets| * b)
  {
    SlotsConcat(frame, b, packets);
  }

  lemma Rejoin(frame: Bytes, n: nat, front: Bytes, back: Bytes)
    requires n <= |frame| && frame[..n] == front && frame[n..] == back
    ensures frame == front + back
  {
  }

  // ---------------------------------------------------------------- Framebuffer

  /** `copy_from_slice` into a part of `frame`. */
  method CopyInto(frame: array<Byte>, offset: nat, src: array<Byte>, len: nat)
    requires offset + len <= frame.Length && len <= src.Length && frame != src
    modifies frame
    ensures frame[..] == old(frame[..offset]) + src[..len] + old(frame[offset + len..])
  {
    forall i | 0 <= i < len {
      frame[offset + i] := src[i];
    }
  }

  /** `Framebuffer`: on/off pixels in a fixed array, and the configuration they are shown with. */
  class Framebuffer {
    const pixels: array<bool>
    const config: Config

    ghost predicate Shaped() {
      Valid(config) && pixels.Length == MAX_LEDS
    }

    constructor Blank(c: Config)
      requires Valid(c)
      ensures Shaped() && config == c && fresh(pixels)
      ensures forall i | 0 <= i < MAX_LEDS :: !pixels[i]
    {
      config := c;
      pixels := new bool[MAX_LEDS](_ => false);
    }

    method Set(x: nat, y: nat, on: bool)
      requires Shaped() && x < config.width && y < config.height
      modifies pixels
      ensures 0 <= y * config.width + x < MAX_LEDS
      ensures pixels[..] == old(pixels[..])[y * config.width + x := on]
    {
      PixelInBounds(config, x, y);
      pixels[y * config.width + x] := on;
    }

    /** A buffer that starts with the packet of one colour. */
    method EncodeColor(color: Color) returns (buf: array<Byte>)
      requires Shaped()
      ensures fresh(buf) && buf.Length == MAX_BYTES_PER_LED && BytesPerLed(config) <= buf.Length
      ensures buf[..BytesPerLed(config)] == Packet(color, config.pattern, config.timing)
    {
      PacketSize(config);
      buf := new Byte[MAX_BYTES_PER_LED](_ => 0);
      ghost var log := RenderLed(buf, BytesPerLed(config), color, config.pattern, config.timing);
    }

    /**
     `render`: both packets are encoded once, then copied to each pixel's place in the chain. The
     frame ends up as the concatenation, in chain order, of one packet per LED, followed only by
     zeros.
     */
    method Render(frame: array<Byte>)
      requires Shaped() && frame.Length == FRAME_LEN
      modifies frame
      ensures frame[..] == Concat(Packets(config, pixels[..])) + ZeroBytes(Tail(config))
    {
      DataFits(config);
      forall i | 0 <= i < frame.Length { frame[i] := 0; }
      var len := BytesPerLed(config);
      var on := EncodeColor(config.onColor);
      var off := EncodeColor(config.offColor);
      ghost var packets := Packets(config, pixels[..]);
      RenderedNone(frame[..], config, packets, len);
      RenderPixels(frame, on, off, len, packets);
      AllRendered(frame[..], config, packets, len);
      Rejoin(frame[..], |packets| * len, Concat(packets), ZeroBytes(Tail(config)));
    }

    /** The loops of `render`. */
    method RenderPixels(frame: array<Byte>, on: array<Byte>, off: array<Byte>, len: nat, ghost packets: seq<Bytes>)
      requires Shaped() && frame != on && frame != off && len <= on.Length && len <= off.Length
      requires packets == Packets(config, pixels[..]) && len == BytesPerLed(config)
      requires Rendered(frame[..], config, packets, len, 0, 0)
      requires on[..len] == Packet(config.onColor, config.pattern, config.timing)
      requires off[..len] == Packet(config.offColor, config.pattern, config.timing)
      modifies frame
      ensures Rendered(frame[..], config, packets, len, 0, config.height)
    {
      for y := 0 to config.height
        invariant Rendered(frame[..], config, packets, len, 0, y)
      {
        for x := 0 to config.width
          invariant Rendered(frame[..], config, packets, len, x, y)
        {
          RenderPixel(frame, on, off, len, packets, x, y);
        }
        NextRow(frame[..], config, packets, len, y);
      }
    }

    /** The body of `render`'s loops. */
    method RenderPixel(frame: array<Byte>, on: array<Byte>, off: array<Byte>, len: nat, ghost packets: seq<Bytes>,
                       x: nat, y: nat)
      requires Shaped() && frame != on && frame != off && len <= on.Length && len <= off.Length
      requires packets == Packets(config, pixels[..]) && x < config.width && y < config.height
      requires Rendered(frame[..], config, packets, len, x, y)
      requires on[..len] == Packet(config.onColor, config.pattern, config.timing)
      requires off[..len] == Packet(config.offColor, config.pattern, config.timing)
      modifies frame
      ensures Rendered(frame[..], config, packets, len, x + 1, y)
    {
      PixelInBounds(config, x, y);
      var onPixel := pixels[y * config.width + x];
      var led := LedIndex(config.layout, x, y, config.width, config.height);
      IndexThenPixel(config.layout, x, y, config.width, config.height);
      assert packets[led] == LedPacket(config, pixels[..], led);
      StorePacket(frame, if onPixel then on else off, len, led, packets, config, x, y);
    }
  }

  /** Copies one pixel's packet to its LED's place in the frame. */
  method StorePacket(frame: array<Byte>, src: array<Byte>, len: nat, led: nat, ghost packets: seq<Bytes>,
                     ghost c: Config, ghost x: nat, ghost y: nat)
    requires |packets| == c.width * c.height && x < c.width && y < c.height && frame != src && len <= src.Length
    requires led == LedIndex(c.layout, x, y, c.width, c.height) && led < |packets| && packets[led] == src[..len]
    requires Rendered(frame[..], c, packets, len, x, y)
    modifies frame
    ensures Rendered(frame[..], c, packets, len, x + 1, y)
  {
    ghost var before := frame[..];
    CopyInto(frame, led * len, src, len);
    RenderOne(before, frame[..], c, packets, len, x, y, led, led * len);
  }

  lemma RenderedNone(frame: Bytes, c: Config, packets: seq<Bytes>, b: nat)
    requires |packets| == c.width * c.height && |packets| * b <= |frame|
    requires forall i | 0 <= i < |frame| :: frame[i] == 0
    ensures Rendered(frame, c, packets, b, 0, 0)
  {
    forall k: nat | k < |packets| ensures k * b + b <= |frame| {
      SlotFits(b, k, |packets|);
    }
  }

  lemma NextRow(frame: Bytes, c: Config, packets: seq<Bytes>, b: nat, y: nat)
    requires |packets| == c.width * c.height && Rendered(frame, c, packets, b, c.width, y)
    ensures Rendered(frame, c, packets, b, 0, y + 1)
  {
  }
}
