/**
 The nodem framebuffer and the drivers' views of it (src/global.rs, src/driver.rs), and what the
 OLED makes of its view (the pixel path of src/oled.rs).
 */
module Screen {
  import opened Prelude
  import opened Arith
  import opened Bits
  import N = Nodem
  import C = OledConfig
  import D = IledDecode

  /** What a driver samples: the framebuffer, its configuration, and the blink phase. */
  datatype Snapshot = Snapshot(config: N.NodemConfig, buffer: Bytes, phase: nat)

  /** The buffer is as large as the configuration says. */
  predicate Sized(s: Snapshot) {
    N.Valid(s.config) && |s.buffer| == N.BufferLen(s.config)
  }

  // ---------------------------------------------------------------- Global

  /** `display_pixel`: off outside the framebuffer, else its bit, packed row by row, MSB first. */
  function FramebufferPixel(s: Snapshot, x: int, y: int): bool
    requires Sized(s)
  {
    if x < 0 || y < 0 || x >= s.config.width || y >= s.config.height then false
    else
      InBounds(s.config.width, s.config.height, x, y);
      var i := y * s.config.width + x;
      Bit(s.buffer[i / 8], 7 - i % 8)
  }

  /** Every pixel lies in the buffer. */
  lemma InBounds(width: nat, height: nat, x: nat, y: nat)
    requires x < width && y < height
    ensures 0 <= y * width + x < width * height
    ensures (y * width + x) / 8 < (width * height + 7) / 8
  {
    assert (y + 1) * width <= height * width;
    assert (y + 1) * width == y * width + width;
  }

  /** `Global`, as far as the display goes: the configuration, the framebuffer and its dirty flags. */
  class Global {
    var nodemConfig: N.NodemConfig
    var displayBuffer: array<Byte>
    var dirtyOled: bool
    var dirtyIled: bool

    ghost predicate Valid()
      reads this
    {
      N.Valid(nodemConfig) && displayBuffer.Length == N.BufferLen(nodemConfig)
    }

    /** The view of a frame a driver samples all its pixels from. */
    function Sample(phase: nat): (s: Snapshot)
      requires Valid()
      reads this, displayBuffer
      ensures Sized(s)
    {
      Snapshot(nodemConfig, displayBuffer[..], phase)
    }

    constructor (config: N.NodemConfig)
      requires N.Valid(config)
      ensures Valid() && fresh(displayBuffer)
      ensures nodemConfig == config && !dirtyOled && !dirtyIled
      ensures forall i | 0 <= i < displayBuffer.Length :: displayBuffer[i] == 0
    {
      nodemConfig := config;
      displayBuffer := new Byte[N.BufferLen(config)](_ => 0);
      dirtyOled, dirtyIled := false, false;
    }

    /**
     `resize_display`: new mappings apply as they are; another geometry swaps in a blank buffer of
     its size and marks it for every consumer.
     */
    method ResizeDisplay(config: N.NodemConfig)
      requires Valid() && N.Valid(config)
      modifies this
      ensures Valid() && nodemConfig == config
      ensures (config.width, config.height) == old((nodemConfig.width, nodemConfig.height)) ==>
        displayBuffer == old(displayBuffer) && dirtyOled == old(dirtyOled) && dirtyIled == old(dirtyIled)
      ensures (config.width, config.height) != old((nodemConfig.width, nodemConfig.height)) ==>
        && fresh(displayBuffer) && dirtyOled && dirtyIled
        && forall i | 0 <= i < displayBuffer.Length :: displayBuffer[i] == 0
    {
      if N.SameGeometry(config, nodemConfig) {
        nodemConfig := config;
        return;
      }
      displayBuffer := new Byte[N.BufferLen(config)](_ => 0);
      nodemConfig := config;
      dirtyOled, dirtyIled := true, true;
    }

    /** `display_pixel`. */
    method DisplayPixel(x: int, y: int) returns (on: bool)
      requires Valid()
      ensures on == FramebufferPixel(Sample(0), x, y)
    {
      if x < 0 || y < 0 || x >= nodemConfig.width || y >= nodemConfig.height { return false; }
      InBounds(nodemConfig.width, nodemConfig.height, x, y);
      var i := y * nodemConfig.width + x;
      on := Bit(displayBuffer[i / 8], 7 - i % 8);
    }
  }

  /** The framebuffer is one stream of bits, row by row, the most significant bit of a byte first. */
  lemma PixelIsStreamBit(s: Snapshot, x: nat, y: nat)
    requires Sized(s) && x < s.config.width && y < s.config.height
    ensures 0 <= y * s.config.width + x < |D.Unpack(s.buffer)|
    ensures FramebufferPixel(s, x, y) == D.Unpack(s.buffer)[y * s.config.width + x]
  {
    InBounds(s.config.width, s.config.height, x, y);
    var i := y * s.config.width + x;
    assert i == 8 * (i / 8) + i % 8;
  }

  /** And everything outside it is off. */
  lemma OutsideIsOff(s: Snapshot, x: int, y: int)
    requires Sized(s) && !(0 <= x < s.config.width && 0 <= y < s.config.height)
    ensures !FramebufferPixel(s, x, y)
  {
  }

  // ---------------------------------------------------------------- DriverView

  /** Integer division truncated toward zero, as `i32` division is. */
  function Quot(a: int, b: nat): int
    requires b > 0
  {
    if a >= 0 then a / b else -((-a) / b)
  }

  /** The blank columns (or rows) before a framebuffer that is smaller than the output. */
  function Margin(size: nat, fb: nat, scale: nat): (m: int)
    ensures m >= 0
  {
    var m := Quot(size - fb * scale, 2);
    if m > 0 then m else 0
  }

  /** The framebuffer coordinate shown at driver coordinate `d`, along one axis. */
  function Axis(d: nat, size: nat, fb: nat, scale: nat, shift: int): int
    requires scale > 0
  {
    shift + (d - Margin(size, fb, scale)) / scale
  }

  /** The blinking dotted frame of a driver without a mapping. */
  predicate Fallback(width: nat, height: nat, phase: nat, x: nat, y: nat)
    requires x < width && y < height
  {
    && (x == 0 || y == 0 || x == width - 1 || y == height - 1)
    && (x + y + phase) % 2 == 0
  }

  /** The frame blinks: each dot of the edge is lit in exactly one of the two phases, and no other pixel ever. */
  lemma FallbackBlinks(width: nat, height: nat, x: nat, y: nat)
    requires x < width && y < height
    ensures Fallback(width, height, 0, x, y) != Fallback(width, height, 1, x, y)
      <==> x == 0 || y == 0 || x == width - 1 || y == height - 1
    ensures !(Fallback(width, height, 0, x, y) && Fallback(width, height, 1, x, y))
  {
  }

  /** `DriverView::pixel`, for a view of `width` x `height` driver pixels. */
  predicate ViewPixel(s: Snapshot, driver: N.DriverKind, width: nat, height: nat, x: nat, y: nat)
    requires Sized(s)
  {
    if x >= width || y >= height then false
    else match N.Mapping(s.config, driver)
      case None => Fallback(width, height, s.phase, x, y)
      case Some(m) =>
        assert N.ValidDevice(m);
        FramebufferPixel(s, Axis(x, width, s.config.width, m.scaleX, m.x),
                            Axis(y, height, s.config.height, m.scaleY, m.y))
  }

  /**
   Along an axis, framebuffer coordinate `f` shows at exactly one block of `scale` driver pixels
   (those of it that are on the output).
   */
  lemma AxisPreimage(d: nat, f: int, size: nat, fb: nat, scale: nat, shift: int)
    requires scale > 0
    ensures var start := Margin(size, fb, scale) + (f - shift) * scale;
      Axis(d, size, fb, scale, shift) == f <==> start <= d < start + scale
  {
    var z := d - Margin(size, fb, scale);
    var g := f - shift;
    if z / scale == g {
      assert z == scale * (z / scale) + z % scale;
      assert scale * g == g * scale;
    } else if g * scale <= z < g * scale + scale {
      assert scale * g == g * scale;
      DivModOf(scale, g, z - g * scale);
    }
  }

  /**
   An unshifted framebuffer that fits the output is shown whole: its blocks lie on the output, and
   the margins before and after it differ by at most one.
   */
  lemma ShownWhole(size: nat, fb: nat, scale: nat, f: nat)
    requires scale > 0 && fb * scale <= size && f < fb
    ensures var before := Margin(size, fb, scale); var after := size - fb * scale - before;
      && 0 <= before <= after <= before + 1
      && 0 <= before + f * scale && before + f * scale + scale <= size
  {
    assert f * scale + scale <= fb * scale by {
      MulMonotone(scale, f + 1, fb);
      assert scale * (f + 1) == scale * f + scale;
    }
  }

  /** A framebuffer as large as the output or larger starts at the edge. */
  lemma StartsAtEdge(size: nat, fb: nat, scale: nat)
    requires scale > 0 && fb * scale >= size
    ensures Margin(size, fb, scale) == 0
  {
  }

  /** Driver coordinate `d` lies in the block that framebuffer coordinate `f` is shown as. */
  predicate InBlock(d: nat, f: int, size: nat, fb: nat, scale: nat, shift: int) {
    var start := Margin(size, fb, scale) + (f - shift) * scale;
    start <= d < start + scale
  }

  /** A framebuffer pixel that is on. */
  predicate On(s: Snapshot, fx: nat, fy: nat)
    requires Sized(s)
  {
    && fx < s.config.width && fy < s.config.height
    && (InBounds(s.config.width, s.config.height, fx, fy); D.Unpack(s.buffer)[fy * s.config.width + fx])
  }

  /** The pixel at `(x, y)` is the framebuffer's, as far as it is inside. */
  lemma PixelIsOn(s: Snapshot, x: int, y: int)
    requires Sized(s)
    ensures FramebufferPixel(s, x, y) <==> 0 <= x && 0 <= y && On(s, x, y)
  {
    if 0 <= x < s.config.width && 0 <= y < s.config.height {
      PixelIsStreamBit(s, x, y);
    } else {
      OutsideIsOff(s, x, y);
    }
  }

  /**
   What a driver with an entry shows: a pixel is lit exactly where it lies in the block of a framebuffer
   pixel that is on. Everything around the framebuffer is dark.
   */
  lemma MappedView(s: Snapshot, m: N.DeviceMapping, width: nat, height: nat, x: nat, y: nat)
    requires Sized(s) && Some(m) in s.config.devices && x < width && y < height
    ensures ViewPixel(s, m.driver, width, height, x, y) <==>
      exists fx: nat, fy: nat ::
        && InBlock(x, fx, width, s.config.width, m.scaleX, m.x)
        && InBlock(y, fy, height, s.config.height, m.scaleY, m.y)
        && On(s, fx, fy)
  {
    N.MappingIsEntry(s.config, m.driver, m);
    assert N.ValidDevice(m);
    var ax, ay := Axis(x, width, s.config.width, m.scaleX, m.x), Axis(y, height, s.config.height, m.scaleY, m.y);
    PixelIsOn(s, ax, ay);
    AxisPreimage(x, ax, width, s.config.width, m.scaleX, m.x);
    AxisPreimage(y, ay, height, s.config.height, m.scaleY, m.y);
    if 0 <= ax && 0 <= ay && On(s, ax, ay) {
      assert InBlock(x, ax, width, s.config.width, m.scaleX, m.x);
    }
    forall fx: nat, fy: nat |
      && InBlock(x, fx, width, s.config.width, m.scaleX, m.x)
      && InBlock(y, fy, height, s.config.height, m.scaleY, m.y) && On(s, fx, fy)
      ensures fx == ax && fy == ay
    {
      AxisPreimage(x, fx, width, s.config.width, m.scaleX, m.x);
      AxisPreimage(y, fy, height, s.config.height, m.scaleY, m.y);
    }
  }

  /** A driver without an entry shows every second pixel of its edge, and the others in the other phase. */
  lemma UnmappedView(s: Snapshot, driver: N.DriverKind, width: nat, height: nat, x: nat, y: nat)
    requires Sized(s) && forall m | Some(m) in s.config.devices :: m.driver != driver
    ensures ViewPixel(s, driver, width, height, x, y) <==>
      && x < width && y < height && (x + y + s.phase) % 2 == 0
      && (x == 0 || y == 0 || x == width - 1 || y == height - 1)
  {
    if N.Mapping(s.config, driver).Some? {
      N.MappingIsEntry(s.config, driver, N.Mapping(s.config, driver).value);
    }
  }

  /** A view has no pixels outside. */
  lemma OutsideView(s: Snapshot, driver: N.DriverKind, width: nat, height: nat, x: nat, y: nat)
    requires Sized(s) && (x >= width || y >= height)
    ensures !ViewPixel(s, driver, width, height, x, y)
  {
  }

  // ---------------------------------------------------------------- the OLED's rotation

  /** `rotated_size`. */
  function RotatedSize(c: C.Config): (nat, nat) {
    if c.rotation % 180 == 90 then (c.height, c.width) else (c.width, c.height)
  }

  /** The view coordinates of panel pixel `(px, py)`. */
  function Rotate(c: C.Config, px: int, py: int): (int, int) {
    if c.rotation == 90 then (py, c.width - 1 - px)
    else if c.rotation == 180 then (c.width - 1 - px, c.height - 1 - py)
    else if c.rotation == 270 then (c.height - 1 - py, px)
    else (px, py)
  }

  /** The panel pixel that shows view pixel `(rx, ry)`. */
  function Unrotate(c: C.Config, rx: int, ry: int): (int, int) {
    if c.rotation == 90 then (c.width - 1 - ry, rx)
    else if c.rotation == 180 then (c.width - 1 - rx, c.height - 1 - ry)
    else if c.rotation == 270 then (ry, c.height - 1 - rx)
    else (rx, ry)
  }

  predicate Within(p: (int, int), size: (nat, nat)) {
    0 <= p.0 < size.0 && 0 <= p.1 < size.1
  }

  /** Rotation is a bijection from the panel onto the rotated view. */
  lemma RotationBijection(c: C.Config, p: (int, int))
    requires C.Valid(c)
    ensures Within(p, (c.width, c.height)) ==>
      Within(Rotate(c, p.0, p.1), RotatedSize(c)) && var r := Rotate(c, p.0, p.1); Unrotate(c, r.0, r.1) == p
    ensures Within(p, RotatedSize(c)) ==>
      Within(Unrotate(c, p.0, p.1), (c.width, c.height)) && var r := Unrotate(c, p.0, p.1); Rotate(c, r.0, r.1) == p
  {
  }

  /**
   The picture turns clockwise: its first pixel goes from one corner of the panel to the next, and its first
   row runs along the edge that follows.
   */
  lemma TurnsClockwise(c: C.Config, i: nat)
    requires C.Valid(c) && i < RotatedSize(c).0
    ensures (i, 0) == match c.rotation
      case 90 => Rotate(c, c.width - 1, i)
      case 180 => Rotate(c, c.width - 1 - i, c.height - 1)
      case 270 => Rotate(c, 0, c.height - 1 - i)
      case _ => Rotate(c, i, 0)
  {
  }

  /** `OledConfig::pixel`: whether panel pixel `(px, py)` is lit. */
  predicate PanelPixel(c: C.Config, s: Snapshot, px: nat, py: nat)
    requires C.Valid(c) && Sized(s) && px < c.width && py < c.height
  {
    RotationBijection(c, (px, py));
    var (rx, ry) := Rotate(c, px, py);
    var (w, h) := RotatedSize(c);
    ViewPixel(s, N.Oled, w, h, rx, ry)
  }

  // ---------------------------------------------------------------- preparing a page

  /** The eight pixels of column `col` in page `page`, topmost first. */
  function ColumnBits(c: C.Config, s: Snapshot, page: nat, col: nat): (bits: seq<bool>)
    requires C.Valid(c) && Sized(s) && page < C.DrawArea(c).pages && col < C.DrawArea(c).cols
    ensures |bits| == 8
  {
    C.DrawAreaFits(c);
    seq(8, b requires 0 <= b < 8 => PanelPixel(c, s, col, page * 8 + b))
  }

  function ColumnByte(c: C.Config, s: Snapshot, page: nat, col: nat): Byte
    requires C.Valid(c) && Sized(s) && page < C.DrawArea(c).pages && col < C.DrawArea(c).cols
  {
    var bits := ColumnBits(c, s, page, col);
    FromLsbBound(bits);
    assert Pow2(8) == 256 by { assert Pow2(4) == 16; }
    FromLsb(bits)
  }

  /** The data of page `page`: a byte per column, the topmost pixel its lowest bit. */
  function PageData(c: C.Config, s: Snapshot, page: nat): (data: Bytes)
    requires C.Valid(c) && Sized(s) && page < C.DrawArea(c).pages
    ensures |data| == C.DrawArea(c).cols
  {
    seq(C.DrawArea(c).cols, col requires 0 <= col < C.DrawArea(c).cols => ColumnByte(c, s, page, col))
  }

  /** Bit `b` of column `col`'s byte is the panel pixel in that column and row. */
  lemma PageDataBit(c: C.Config, s: Snapshot, page: nat, col: nat, b: nat)
    requires C.Valid(c) && Sized(s) && page < C.DrawArea(c).pages && col < C.DrawArea(c).cols && b < 8
    ensures col < c.width && page * 8 + b < c.height
    ensures Bit(PageData(c, s, page)[col], b) == PanelPixel(c, s, col, page * 8 + b)
  {
    C.DrawAreaFits(c);
    BitOfLsb(ColumnBits(c, s, page, col), b);
  }

  /**
   End to end, for a mapped OLED: bit `b` of column `col` in page `page` is the framebuffer pixel
   reached through rotation, centring, scaling and shift.
   */
  lemma PageDataPixel(c: C.Config, s: Snapshot, page: nat, col: nat, b: nat, m: N.DeviceMapping)
    requires C.Valid(c) && Sized(s) && page < C.DrawArea(c).pages && col < C.DrawArea(c).cols && b < 8
    requires N.Mapping(s.config, N.Oled) == Some(m)
    ensures m.scaleX > 0 && m.scaleY > 0
    ensures var (rx, ry) := Rotate(c, col, page * 8 + b); var (w, h) := RotatedSize(c);
      && Within((rx, ry), (w, h))
      && Bit(PageData(c, s, page)[col], b)
         == FramebufferPixel(s, Axis(rx, w, s.config.width, m.scaleX, m.x), Axis(ry, h, s.config.height, m.scaleY, m.y))
  {
    PageDataBit(c, s, page, col, b);
    RotationBijection(c, (col, page * 8 + b));
    assert N.ValidDevice(m);
  }

  /** Out of the box the default display shows the default framebuffer one to one. */
  lemma DefaultsFit(s: Snapshot, px: nat, py: nat)
    requires Sized(s) && s.config == N.DefaultConfig() && px < C.DEFAULT.width && py < C.DEFAULT.height
    ensures C.Valid(C.DEFAULT) && (C.DEFAULT.width, C.DEFAULT.height) == (s.config.width, s.config.height)
    ensures PanelPixel(C.DEFAULT, s, px, py) == FramebufferPixel(s, px, py)
  {
    DefaultMapping();
    AxisOfSame(px, 128);
    AxisOfSame(py, 64);
  }

  lemma DefaultMapping()
    ensures N.Valid(N.DefaultConfig())
    ensures N.Mapping(N.DefaultConfig(), N.Oled) == Some(N.DeviceMapping(N.Oled, 0, 0, 1, 1))
  {
    N.DefaultIsValid();
    N.MappingIsEntry(N.DefaultConfig(), N.Oled, N.DeviceMapping(N.Oled, 0, 0, 1, 1));
    assert N.DefaultConfig().devices[0] == Some(N.DeviceMapping(N.Oled, 0, 0, 1, 1));
  }

  lemma AxisOfSame(d: nat, size: nat)
    ensures Axis(d, size, size, 1, 0) == d
  {
  }
}
