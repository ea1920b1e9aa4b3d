/**
 Configurations across a restart: what "#nodem", "#oled" and "#iled" store (src/command_listener.rs)
 and what is read back at boot (src/nodem.rs, src/oled.rs, src/iled.rs).
 */
module Persistence {
  import opened Prelude
  import opened Text
  import N = Nodem
  import O = OledConfig
  import G = IledGrammar
  import opened IledChips
  import opened Iled
  import opened IledWire
  import opened Bits
  import opened IledFields
  import Arith

  const ILED_VALUE_MAX_LEN := 80
  const ILED_BUFFER_LEN := 80

  /** `CommandListener::store`, of a text within its bounds. */
  predicate Storable(text: string, min: nat, max: nat) {
    min <= Utf8Len(text) <= max
  }

  /** `EspNvs::get_str` into a buffer that also needs room for the terminating NUL. */
  function ReadBack(stored: Option<string>, buffer: nat): Option<string> {
    if stored.Some? && Utf8Len(stored.value) + 1 <= buffer then stored else None
  }

  // ---------------------------------------------------------------- nodem

  /** "#nodem": the text stored and the configuration applied, if the command is accepted. */
  function NodemCommand(args: string): Option<(string, N.NodemConfig)> {
    var value := Trim(args);
    var config := if value == "" then Some(N.DefaultConfig()) else N.Parsed(value);
    if config.None? || !Storable(N.Print(config.value), 1, N.NVS_VALUE_MAX_LEN) then None
    else Some((N.Print(config.value), config.value))
  }

  /** `read_nodem_config`: what is in use after a restart. */
  function ReadNodem(stored: Option<string>): N.NodemConfig {
    match ReadBack(stored, N.NVS_VALUE_MAX_LEN + 1)
    case None => N.DefaultConfig()
    case Some(text) => if N.Parsed(text).Some? then N.Parsed(text).value else N.DefaultConfig()
  }

  lemma NodemTextIsAscii(c: N.NodemConfig)
    requires N.Valid(c)
    ensures Ascii(N.Print(c))
  {
    var ds := N.Flatten(c.devices);
    AsciiDec(c.width);
    AsciiDec(c.height);
    AsciiDec(c.bitsPerPixel);
    AsciiJoin([Dec(c.width), Dec(c.height), Dec(c.bitsPerPixel)], ':');
    forall d | d in ds ensures Ascii(N.PrintDevice(d)) {
      AsciiDec(if d.x < 0 then -d.x else d.x);
      AsciiDec(if d.y < 0 then -d.y else d.y);
      AsciiDec(d.scaleX);
      AsciiDec(d.scaleY);
      AsciiJoin(N.DeviceParts(d), ':');
    }
    AsciiJoin([N.PrintGeometry(c)] + N.PrintDevices(ds), ',');
  }

  /** Every configuration that parses is accepted, and after a restart it is the one in use. */
  lemma NodemSurvivesRestart(args: string)
    ensures NodemCommand(args).Some? <==> Trim(args) == "" || N.Parsed(Trim(args)).Some?
    ensures NodemCommand(args).Some? ==>
      var (text, config) := NodemCommand(args).value;
      && config == (if Trim(args) == "" then N.DefaultConfig() else N.Parsed(Trim(args)).value)
      && ReadNodem(Some(text)) == config
    ensures ReadNodem(None) == N.DefaultConfig()
  {
    var value := Trim(args);
    N.DefaultIsValid();
    N.ParsedIsValid(value);
    if value == "" || N.Parsed(value).Some? {
      var config := if value == "" then N.DefaultConfig() else N.Parsed(value).value;
      NodemTextIsAscii(config);
      AsciiLen(N.Print(config));
      N.PrintFits(config);
      N.RoundTrip(config);
    }
  }

  // ---------------------------------------------------------------- oled

  /** "#oled": `None` inside is a disabled display, whose value is stored as given. */
  function OledCommand(args: string): Option<(string, Option<O.Config>)> {
    var value := Trim(args);
    match O.Parse(value)
    case Refused => None
    case Disabled => if Storable(value, 0, O.NVS_VALUE_MAX_LEN) then Some((value, None)) else None
    case Enabled(c) =>
      if Storable(O.Print(c), 0, O.NVS_VALUE_MAX_LEN) then Some((O.Print(c), Some(c))) else None
  }

  /** `read_oled_config`. */
  function ReadOled(stored: Option<string>): Option<O.Config> {
    match ReadBack(stored, O.NVS_VALUE_MAX_LEN + 1)
    case None => Some(O.DEFAULT)
    case Some(text) =>
      match O.Parse(text)
      case Refused => Some(O.DEFAULT)
      case Disabled => None
      case Enabled(c) => Some(c)
  }

  lemma OledTextIsAscii(c: O.Config)
    ensures Ascii(O.Print(c))
  {
    AsciiDec(c.width);
    AsciiDec(c.height);
    AsciiDec(c.x);
    AsciiDec(c.y);
    AsciiDec(c.rotation);
    AsciiJoin(O.Parts(c), ':');
  }

  /**
   Every value that parses is accepted, unless it disables the display in more than 48 bytes; and
   after a restart the display is configured, or disabled, as it was.
   */
  lemma OledSurvivesRestart(args: string)
    ensures var value := Trim(args);
      OledCommand(args).Some? <==>
        O.Parse(value).Enabled? || (O.Parse(value).Disabled? && Utf8Len(value) <= O.NVS_VALUE_MAX_LEN)
    ensures OledCommand(args).Some? ==>
      var (text, config) := OledCommand(args).value; var value := Trim(args);
      && config == (if O.Parse(value).Enabled? then Some(O.Parse(value).config) else None)
      && ReadOled(Some(text)) == config
    ensures ReadOled(None) == Some(O.DEFAULT)
  {
    var value := Trim(args);
    if O.Parse(value).Enabled? {
      var c := O.Parse(value).config;
      O.ParsedIsValid(value);
      OledTextIsAscii(c);
      AsciiLen(O.Print(c));
      O.PrintFits(c);
      O.RoundTrip(c);
    }
  }

  // ---------------------------------------------------------------- iled

  /** The chain's stored text, and the configuration in use; `None` in use is a chain switched off. */
  datatype Chain = Chain(stored: Option<string>, inUse: Option<Config>)

  /** Whether "#iled" accepts its arguments: it does not store a text of more than 80 bytes. */
  predicate IledAccepts(args: string) {
    || Trim(args) == ""
    || (G.Parsed(args).Some? && Storable(G.Print(G.Parsed(args).value), 1, ILED_VALUE_MAX_LEN))
  }

  /** "#iled": a bare one forgets the stored text and switches the chain off. */
  function IledCommand(s: Chain, args: string): Chain {
    if Trim(args) == "" then Chain(None, None)
    else if !IledAccepts(args) then s
    else Chain(Some(G.Print(G.Parsed(args).value)), Some(G.Parsed(args).value))
  }

  /** What a stored text stands for at boot, if it can be read and parsed. */
  function Readable(stored: Option<string>): Option<Config> {
    match ReadBack(stored, ILED_BUFFER_LEN)
    case None => None
    case Some(text) => G.Parsed(text)
  }

  /** `read_iled_config` at boot: without a readable text the default is stored, and put in use. */
  function IledBoot(s: Chain): Chain {
    var config := Readable(s.stored);
    if config.Some? then Chain(s.stored, config)
    else Chain(Some(G.Print(DEFAULT_CONFIG)), Some(DEFAULT_CONFIG))
  }

  lemma {:induction false} PatternText(p: Pattern)
    requires forall i | 0 <= i < |p| :: 1 <= p[i].1 <= MAX_CHANNEL_BITS
    ensures Ascii(PrintPattern(p)) && |PrintPattern(p)| == 2 * |p|
  {
    if p != [] {
      PatternText(p[1..]);
      assert Dec(p[0].1) == [Digit(p[0].1)];
    }
  }

  /** The printed protocol: its length, field by field. */
  lemma ProtocolText(t: Timing, p: Pattern)
    requires ValidTiming(t) && ValidPattern(p)
    ensures var s := Join(G.ProtocolParts(t, p), ':');
      Ascii(s) && |s| == 2 * t.resolution + |Dec(t.patternNs)| + |Dec(t.resetNs)| + 2 * |p| + 4
  {
    var parts := G.ProtocolParts(t, p);
    PatternText(p);
    AsciiDec(t.patternNs);
    AsciiDec(t.resetNs);
    AsciiJoin(parts, ':');
    JoinLength(parts, ':');
    JoinLength(parts[1..], ':');
    JoinLength(parts[2..], ':');
    JoinLength(parts[3..], ':');
    assert parts[1..][1..] == parts[2..] && parts[2..][1..] == parts[3..] && parts[3..][1..] == parts[4..];
  }

  lemma GeometryText(c: Config)
    ensures var s := Join(G.GeometryParts(c), ':');
      Ascii(s) && |s| == |Dec(c.width)| + |Dec(c.height)| + (if c.layout.serpentine then 4 else 3) + 2
  {
    var parts := G.GeometryParts(c);
    AsciiDec(c.width);
    AsciiDec(c.height);
    AsciiJoin(parts, ':');
    JoinLength(parts, ':');
    JoinLength(parts[1..], ':');
    assert parts[1..][1..] == parts[2..];
  }

  lemma ColorText(c: Color)
    ensures Ascii(PrintColor(c)) && |PrintColor(c)| == 11
  {
    HexByteIsAscii(c.r);
    HexByteIsAscii(c.g);
    HexByteIsAscii(c.b);
    HexByteIsAscii(c.w);
    HexByteIsAscii(c.c);
  }

  lemma HexByteIsAscii(v: Byte)
    ensures Ascii(HexByte(v))
  {
  }

  /** How many bytes a printed configuration takes. */
  function TextLength(c: Config): nat {
    |Dec(c.width)| + |Dec(c.height)| + (if c.layout.serpentine then 4 else 3)
    + 2 * c.timing.resolution + |Dec(c.timing.patternNs)| + |Dec(c.timing.resetNs)| + 2 * |c.pattern| + 31
  }

  lemma PrintedLength(c: Config)
    requires Valid(c)
    ensures Utf8Len(G.Print(c)) == |G.Print(c)| == TextLength(c)
  {
    var parts := G.ConfigParts(c);
    GeometryText(c);
    ProtocolText(c.timing, c.pattern);
    ColorText(c.onColor);
    ColorText(c.offColor);
    AsciiJoin(parts, ',');
    AsciiLen(G.Print(c));
    JoinLength(parts, ',');
    JoinLength(parts[1..], ',');
    JoinLength(parts[2..], ',');
    assert parts[1..][1..] == parts[2..] && parts[2..][1..] == parts[3..];
  }

  /** The text of a configuration is never longer than 82 bytes, nor than 79 with patterns below 10 ms. */
  lemma TextBound(c: Config)
    requires Valid(c)
    ensures TextLength(c) <= 82
    ensures c.timing.patternNs < 10_000_000 ==> TextLength(c) <= 79
  {
    SmallPowers();
    DimensionDigits(c);
    DecLength(c.timing.patternNs, 10);
    if c.timing.patternNs < 10_000_000 { DecLength(c.timing.patternNs, 7); }
    DecLength(c.timing.resetNs, 7);
  }

  lemma SmallPowers()
    ensures Pow10(1) == 10 && Pow10(2) == 100 && Pow10(3) == 1000
    ensures Pow10(7) == 10_000_000 && Pow10(10) == 10_000_000_000
  {
    assert Pow10(1) == 10 && Pow10(2) == 100 && Pow10(3) == 1000 && Pow10(4) == 10_000 && Pow10(5) == 100_000;
    assert Pow10(6) == 1_000_000 && Pow10(7) == 10_000_000 && Pow10(8) == 100_000_000 && Pow10(9) == 1_000_000_000;
  }

  /** At most 128 LEDs: width and height take four digits together. */
  lemma DimensionDigits(c: Config)
    requires Valid(c)
    ensures |Dec(c.width)| + |Dec(c.height)| <= 4
  {
    SmallPowers();
    G.DimensionBound(c);
    DecLength(c.width, 3);
    DecLength(c.height, 3);
    if c.width >= 100 {
      Arith.MulMonotone(c.width, 2, c.height);
      DecLength(c.height, 1);
    } else {
      DecLength(c.width, 2);
      if c.height >= 100 {
        Arith.MulMonotone(c.height, 2, c.width);
        DecLength(c.width, 1);
      } else {
        DecLength(c.height, 2);
      }
    }
  }

  lemma ReadableText(text: string, c: Config)
    requires G.Parsed(text) == Some(c)
    ensures Readable(Some(text)) == if Utf8Len(text) < 80 then Some(c) else None
  {
  }

  /** What is read back of a stored configuration. */
  lemma StoredIled(c: Config)
    requires Valid(c)
    ensures Readable(Some(G.Print(c))) == if TextLength(c) < 80 then Some(c) else None
    ensures TextLength(c) >= 80 ==> c != DEFAULT_CONFIG
  {
    G.RoundTrip(c);
    PrintedLength(c);
    ReadableText(G.Print(c), c);
    TextBound(c);
  }

  /** "#iled" accepts a bare command, and what parses to a configuration of at most 80 bytes. */
  lemma IledAcceptance(args: string)
    ensures IledAccepts(args) <==>
      Trim(args) == "" || (G.Parsed(args).Some? && TextLength(G.Parsed(args).value) <= 80)
  {
    if G.Parsed(args).Some? {
      G.ParsedIsValid(args);
      PrintedLength(G.Parsed(args).value);
    }
  }

  /**
   What is in use after a restart is what an accepted "#iled" put in use exactly when the command was
   not bare and its configuration is shorter than 80 bytes; otherwise it is the default. A text of 80
   bytes is stored, but does not fit the buffer it is read into; a bare command stores nothing, and a
   missing text means the default.
   */
  lemma IledSurvivesRestart(s: Chain, args: string)
    ensures IledAccepts(args) ==>
      var set' := IledCommand(s, args);
      var kept := Trim(args) != "" && TextLength(G.Parsed(args).value) < 80;
      && (IledBoot(set').inUse == set'.inUse <==> kept)
      && (!kept ==> IledBoot(set').inUse == Some(DEFAULT_CONFIG))
  {
    if IledAccepts(args) && Trim(args) != "" {
      G.ParsedIsValid(args);
      StoredIled(G.Parsed(args).value);
    }
  }

  /** Every configuration with patterns below 10 ms is accepted and survives a restart, unless the command is bare. */
  lemma UsualIledSurvivesRestart(s: Chain, args: string)
    ensures Trim(args) != "" && G.Parsed(args).Some? && G.Parsed(args).value.timing.patternNs < 10_000_000 ==>
      var set' := IledCommand(s, args);
      IledAccepts(args) && set'.inUse == G.Parsed(args) && IledBoot(set').inUse == set'.inUse
  {
    if G.Parsed(args).Some? {
      G.ParsedIsValid(args);
      TextBound(G.Parsed(args).value);
      IledAcceptance(args);
      IledSurvivesRestart(s, args);
    }
  }

  /** What is stored after a restart is what is in use, the default included, so the next one changes nothing. */
  lemma SecondBootIsSteady(s: Chain)
    ensures Readable(IledBoot(s).stored) == IledBoot(s).inUse
    ensures IledBoot(IledBoot(s)) == IledBoot(s)
  {
    DefaultIsValid();
    TextBound(DEFAULT_CONFIG);
    StoredIled(DEFAULT_CONFIG);
  }

  /** A chain switched off by a bare "#iled" is on again after a restart, with the default configuration. */
  lemma BareIledComesBack(s: Chain, args: string)
    requires args == ""
    ensures IledAccepts(args) && IledCommand(s, args) == Chain(None, None)
    ensures IledBoot(IledCommand(s, args)).inUse == Some(DEFAULT_CONFIG)
  {
    TrimSpaceless(args);
    IledSurvivesRestart(s, args);
  }

  /** One of 80 bytes: twelve by ten LEDs, eight sub-bits, five channels, patterns of 10 ms. */
  lemma IledOf80Bytes(s: Chain, c: Config)
    requires c.width == 12 && c.height == 10 && c.layout.serpentine
    requires c.timing == Timing(0xFC, 0xC0, 8, 10_000_000, 1_000_000)
    requires c.pattern == [(Green, 8), (Red, 8), (Blue, 8), (WarmWhite, 8), (ColdWhite, 8)]
    ensures Valid(c) && IledAccepts(G.Print(c))
    ensures var set' := IledCommand(s, G.Print(c));
      set'.inUse == Some(c) && IledBoot(set').inUse == Some(DEFAULT_CONFIG) && c != DEFAULT_CONFIG
  {
    WideText(c);
    G.RoundTrip(c);
    G.PrintIsNotBlank(c);
    StoredIled(c);
    IledAcceptance(G.Print(c));
    IledSurvivesRestart(s, G.Print(c));
  }

  lemma WideText(c: Config)
    requires c.width == 12 && c.height == 10 && c.layout.serpentine
    requires c.timing == Timing(0xFC, 0xC0, 8, 10_000_000, 1_000_000)
    requires c.pattern == [(Green, 8), (Red, 8), (Blue, 8), (WarmWhite, 8), (ColdWhite, 8)]
    ensures Valid(c) && TextLength(c) == 80
  {
    Digits(12, 1);
    Digits(10, 1);
    Digits(10_000_000, 7);
    Digits(1_000_000, 6);
    assert Pow2(8) == 256 by { assert Pow2(4) == 16; }
    FullPattern(c.pattern);
  }

  lemma FullPattern(p: Pattern)
    requires |p| == 5 && forall i | 0 <= i < |p| :: p[i].1 == 8
    ensures TotalBits(p) == 40
  {
    assert p[..4][..3] == p[..3] && p[..3][..2] == p[..2] && p[..2][..1] == p[..1] && p[..1][..0] == [];
    assert TotalBits(p[..1]) == 8 && TotalBits(p[..2]) == 16 && TotalBits(p[..3]) == 24 && TotalBits(p[..4]) == 32;
  }

  /** A number from 10^k on, below 10^(k+1), has k + 1 digits. */
  lemma {:induction false} Digits(n: nat, k: nat)
    requires Pow10(k) <= n < Pow10(k + 1)
    ensures |Dec(n)| == k + 1
  {
    if k > 0 {
      Digits(n / 10, k - 1);
    }
  }
}
