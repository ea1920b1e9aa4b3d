/**
 The OLED as one display of the flush protocol (src/oled.rs): the two chips' byte sequences, the
 controller that reads them, and pages rendered from the nodem framebuffer.
 */
module OledDisplay {
  import opened Prelude
  import opened Bits
  import S = Screen
  import C = OledConfig
  import P = OledProtocol
  import Q = OledProtocolProofs

  import opened K = OledController

  /** `init_commands`. */
  function InitCommands(c: C.Config): Bytes
    requires C.Valid(c)
  {
    [CONTROL_COMMANDS] + Flat(InitSequence(c))
  }

  /** `off_commands`. */
  const OFF_COMMANDS: Bytes := [CONTROL_COMMANDS, DISPLAY_OFF]

  /** A configuration whose draw area shows anything at all. */
  predicate Shows(c: C.Config) {
    C.Valid(c) && C.DrawArea(c).cols > 0
  }

  /** What the controller makes of a write, seen from the draw area. */
  function Effect(c: C.Config, buf: Bytes): P.Effect
    requires Shows(c)
  {
    var a := C.DrawArea(c);
    match C.Stored(c.chip, C.Receive(buf))
    case Some(Store(page, col, data)) =>
      if a.page <= page < a.page + a.pages && col == a.col && |data| == a.cols
      then P.Writes(page - a.page, data) else P.Scrambles
    case None => if buf == OFF_COMMANDS then P.Keeps else P.Scrambles
  }

  function Segment(c: C.Config, page: nat, data: Bytes): Bytes
    requires Shows(c)
  {
    C.DrawAreaFits(c);
    if page < C.DrawArea(c).pages then C.Header(c.chip, C.DrawArea(c), page) + data else data
  }

  /** A page's data; a snapshot that is not one of `Global`'s renders blank. */
  function Render(c: C.Config, s: S.Snapshot, page: nat): Bytes
    requires Shows(c)
  {
    if S.Sized(s) && page < C.DrawArea(c).pages then S.PageData(c, s, page)
    else seq(C.DrawArea(c).cols, _ => 0)
  }

  /** The display the protocol runs on, with whatever hash pages are compared by. */
  function Display(c: C.Config, hash: Bytes -> nat): P.Display<S.Snapshot>
    requires Shows(c)
  {
    P.Display(C.DrawArea(c).pages, InitCommands(c), OFF_COMMANDS,
              (page: nat, data: Bytes) => Segment(c, page, data),
              (s: S.Snapshot, page: nat) => Render(c, s, page),
              (buf: Bytes) => Effect(c, buf),
              hash)
  }

  lemma RenderedPage(c: C.Config, s: S.Snapshot, page: nat)
    requires Shows(c) && page < C.DrawArea(c).pages
    ensures Effect(c, Segment(c, page, Render(c, s, page))) == P.Writes(page, Render(c, s, page))
  {
    C.HeaderAddressesPage(c, page, Render(c, s, page));
  }

  lemma InitIsNoPage(c: C.Config)
    requires Shows(c)
    ensures Effect(c, InitCommands(c)) == P.Scrambles && Effect(c, OFF_COMMANDS) == P.Keeps
  {
    assert |Flat(InitSequence(c))| > 1 by {
      assert InitSequence(c)[1] == InitSequence(c)[1..][0];
    }
  }

  /** The controller takes every sequence the driver builds as what the driver means by it. */
  lemma DisplayIsWellFormed(c: C.Config, hash: Bytes -> nat)
    requires Shows(c)
    ensures P.WellFormed(Display(c, hash))
  {
    var d := Display(c, hash);
    C.DrawAreaFits(c);
    InitIsNoPage(c);
    forall s: S.Snapshot, p: nat | p < d.pages
      ensures d.effect(P.Segment(d, s, p)) == P.Writes(p, d.render(s, p))
    {
      RenderedPage(c, s, p);
    }
  }

  /**
   The whole path: whenever the display task is between frames, the dirty flag is clear and the
   last flush was Ok, every bit of the panel's draw area is the current view's pixel, unless the
   page there collides with the current one.
   */
  lemma PanelShowsView(c: C.Config, hash: Bytes -> nat, s: P.State<S.Snapshot>, page: nat, col: nat, b: nat)
    requires Shows(c) && P.Reachable(Display(c, hash), s) && Q.UpToDate(s) && S.Sized(s.frame)
    requires page < C.DrawArea(c).pages && col < C.DrawArea(c).cols && b < 8
    ensures col < c.width && page * 8 + b < c.height && page < |s.panel|
    ensures
      || Q.Collide(Display(c, hash), page, s.panel[page], S.PageData(c, s.frame, page))
      || (col < |s.panel[page]| && Bit(s.panel[page][col], b) == S.PanelPixel(c, s.frame, col, page * 8 + b))
  {
    DisplayIsWellFormed(c, hash);
    Q.NoLostRedraw(Display(c, hash), s, page);
    S.PageDataBit(c, s.frame, page, col, b);
  }

  // ---------------------------------------------------------------- preparing a page in place

  /** Sets bit `b` of a byte that has none from `b` on: `byte |= (on as u8) << b`. */
  function SetBit(byte: nat, b: nat, on: bool): nat
    requires byte < Pow2(b)
  {
    byte + B(on) * Pow2(b)
  }

  lemma TakeOneMore(a: Bytes, b: Bytes, k: nat)
    requires k < |b|
    ensures a + b[..k + 1] == (a + b[..k]) + [b[k]]
  {
  }

  /** The buffer an `OledDisplay` prepares its next segment in. */
  class Preparation {
    const config: C.Config
    var prep: Bytes

    constructor (c: C.Config)
      ensures config == c && prep == []
    {
      config := c;
      prep := [];
    }

    /** The byte of one column: its eight pixels, topmost first, shifted into place. */
    method PackColumn(view: S.Snapshot, page: nat, col: nat) returns (byte: Byte)
      requires Shows(config) && S.Sized(view) && page < C.DrawArea(config).pages && col < C.DrawArea(config).cols
      ensures byte == S.ColumnByte(config, view, page, col)
    {
      C.DrawAreaFits(config);
      ghost var bits := S.ColumnBits(config, view, page, col);
      var packed := 0;
      for b := 0 to 8
        invariant packed == FromLsb(bits[..b])
      {
        FromLsbBound(bits[..b]);
        FromLsbSnoc(bits[..b], bits[b]);
        assert bits[..b] + [bits[b]] == bits[..b + 1];
        packed := SetBit(packed, b, S.PanelPixel(config, view, col, page * 8 + b));
      }
      assert bits[..8] == bits;
      assert packed == S.ColumnByte(config, view, page, col);
      byte := packed;
    }

    /** `prepare`: the header, then a byte per column of the page, from one sample of the view. */
    method Prepare(page: nat, g: S.Global, phase: nat)
      requires Shows(config) && page < C.DrawArea(config).pages && g.Valid()
      modifies this
      ensures prep == Segment(config, page, S.PageData(config, g.Sample(phase), page))
    {
      C.DrawAreaFits(config);
      var area := C.DrawArea(config);
      var header := C.Header(config.chip, area, page);
      prep := header;

      var view := g.Sample(phase);
      ghost var data := S.PageData(config, view, page);
      for col := 0 to area.cols
        invariant prep == header + data[..col]
      {
        var byte := PackColumn(view, page, col);
        TakeOneMore(header, data, col);
        prep := prep + [byte];
      }
      assert data[..area.cols] == data;
    }
  }
}
