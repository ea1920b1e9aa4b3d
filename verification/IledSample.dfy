/** What the LED chain shows of the nodem framebuffer (`sample_from_dom` in src/iled.rs). */
module IledSample {
  import opened Prelude
  import opened Arith
  import opened IledChain
  import opened IledDecode
  import opened Iled
  import F = IledFrame
  import N = Nodem
  import S = Screen

  /** The chain's view: which of its pixels are lit. */
  function Lit(c: Config, view: S.Snapshot): (nat, nat) -> bool
    requires S.Sized(view)
  {
    (x: nat, y: nat) => S.ViewPixel(view, N.Iled, c.width, c.height, x, y)
  }

  /** The pixels that come before `(x, y)` row by row are `lit` as they should be. */
  ghost predicate SampledBefore(pixels: seq<bool>, width: nat, height: nat, lit: (nat, nat) -> bool, x: nat, y: nat) {
    forall i: nat, j: nat | i < width && j < height && Before((i, j), x, y) ::
      j * width + i < |pixels| && pixels[j * width + i] == lit(i, j)
  }

  ghost predicate Sampled(pixels: seq<bool>, c: Config, view: S.Snapshot)
    requires S.Sized(view)
  {
    SampledBefore(pixels, c.width, c.height, Lit(c, view), 0, c.height)
  }

  lemma IndicesDiffer(width: nat, i: nat, j: nat, x: nat, y: nat)
    requires i < width && x < width
    ensures j * width + i == y * width + x ==> i == x && j == y
  {
    DivModOf(width, j, i);
    DivModOf(width, y, x);
    assert width * j == j * width && width * y == y * width;
  }

  lemma SampleOne(pixels: seq<bool>, width: nat, height: nat, lit: (nat, nat) -> bool, x: nat, y: nat, at: nat)
    requires x < width && y < height && SampledBefore(pixels, width, height, lit, x, y)
    requires at == y * width + x < |pixels|
    ensures SampledBefore(pixels[at := lit(x, y)], width, height, lit, x + 1, y)
  {
    forall i: nat, j: nat | i < width && j < height && Before((i, j), x, y) ensures j * width + i != at {
      IndicesDiffer(width, i, j, x, y);
    }
  }

  /** `sample_from_dom`: every pixel is the view's. */
  method SampleFromDom(fb: Framebuffer, g: S.Global, phase: nat)
    requires fb.Shaped() && g.Valid()
    modifies fb.pixels
    ensures g.Valid() && g.Sample(phase) == old(g.Sample(phase))
    ensures Sampled(fb.pixels[..], fb.config, g.Sample(phase))
  {
    var view := g.Sample(phase);
    ghost var lit := Lit(fb.config, view);
    for y := 0 to fb.config.height
      invariant g.Valid() && g.Sample(phase) == view
      invariant SampledBefore(fb.pixels[..], fb.config.width, fb.config.height, lit, 0, y)
    {
      for x := 0 to fb.config.width
        invariant g.Valid() && g.Sample(phase) == view
        invariant SampledBefore(fb.pixels[..], fb.config.width, fb.config.height, lit, x, y)
      {
        PixelInBounds(fb.config, x, y);
        SampleOne(fb.pixels[..], fb.config.width, fb.config.height, lit, x, y, y * fb.config.width + x);
        fb.Set(x, y, S.ViewPixel(view, N.Iled, fb.config.width, fb.config.height, x, y));
      }
    }
  }

  /**
   The whole path of the chain: the slot that `led_index` gives pixel `(x, y)` decodes to the on
   colour exactly where the chain's view of the framebuffer is lit, else to the off colour.
   */
  lemma FrameShowsView(c: Config, pixels: seq<bool>, view: S.Snapshot, x: nat, y: nat)
    requires Valid(c) && |pixels| == MAX_LEDS && c.timing.high != c.timing.low && x < c.width && y < c.height
    requires S.Sized(view) && Sampled(pixels, c, view)
    ensures var led := LedIndex(c.layout, x, y, c.width, c.height); var b := BytesPerLed(c);
      && led * b + b <= |F.Frame(c, pixels)|
      && DecodePacket(Slot(F.Frame(c, pixels), b, led), c.pattern, c.timing)
         == Some(Carried(if Lit(c, view)(x, y) then c.onColor else c.offColor, c.pattern))
  {
    F.FrameShowsPixel(c, pixels, x, y);
    PixelInBounds(c, x, y);
    assert Before((x, y), 0, c.height);
  }

  /**
   What the chain's view is: where it has an entry, its pixel is lit exactly where it lies in the block
   of a framebuffer pixel that is on; without one, the blinking frame.
   */
  lemma LitMeaning(c: Config, view: S.Snapshot, m: N.DeviceMapping, x: nat, y: nat)
    requires S.Sized(view) && x < c.width && y < c.height && m.driver == N.Iled
    ensures Some(m) in view.config.devices ==>
      (Lit(c, view)(x, y) <==>
        exists fx: nat, fy: nat ::
          && S.InBlock(x, fx, c.width, view.config.width, m.scaleX, m.x)
          && S.InBlock(y, fy, c.height, view.config.height, m.scaleY, m.y)
          && S.On(view, fx, fy))
    ensures (forall e | Some(e) in view.config.devices :: e.driver != N.Iled) ==>
      (Lit(c, view)(x, y) <==>
        (x == 0 || y == 0 || x == c.width - 1 || y == c.height - 1) && (x + y + view.phase) % 2 == 0)
  {
    if Some(m) in view.config.devices { S.MappedView(view, m, c.width, c.height, x, y); }
    if forall e | Some(e) in view.config.devices :: e.driver != N.Iled {
      S.UnmappedView(view, N.Iled, c.width, c.height, x, y);
    }
  }
}
