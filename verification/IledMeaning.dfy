/**
 What the text of an "#iled" command means to the chain (src/iled.rs): every default written out, the
 protocol as it goes over the wire, and the digits of a colour as the LEDs receive them.
 */
module IledMeaning {
  import opened Prelude
  import opened Text
  import opened Bits
  import opened IledChain
  import opened IledWire
  import opened IledDecode
  import opened IledFields
  import opened Iled
  import opened IledGrammar
  import opened IledChips
  import F = IledFrame

  // ---------------------------------------------------------------- defaults

  /** A dimension that is left out, blank or zero is a one. */
  function DimensionText(s: string): string {
    if s == "" || ParseUInt(s, USIZE_MAX) == Some(0) then "1" else s
  }

  function TextOr(s: string, default: string): string {
    if s == "" then default else s
  }

  /** A geometry with nothing left out. */
  function GeometryParts(s: string): seq<string> {
    var g := TrimAll(Split(s, ':'));
    [DimensionText(Field(g, 0)), DimensionText(Field(g, 1)), TextOr(Field(g, 2), "ltx")]
  }

  /** The fields of a line with nothing left out. */
  function FullFields(line: string): seq<string> {
    var f := TrimAll(Split(line, ','));
    [Join(GeometryParts(Field(f, 0)), ':'), TextOr(Field(f, 1), DEFAULT_CHIP), TextOr(Field(f, 2), "#10"),
     TextOr(Field(f, 3), "#")]
  }

  function Full(line: string): string {
    Join(FullFields(line), ',')
  }

  /** What a field that is cut out of a text at `sep` and trimmed can hold. */
  lemma FieldOf(s: string, sep: char, i: nat)
    ensures var t := Field(TrimAll(Split(s, sep)), i); IsField(t, sep) && forall c | c in t :: c in s
  {
    FieldsOf(s, sep);
    var fields := TrimAll(Split(s, sep));
    if i < |fields| { assert fields[i] in fields; }
  }

  lemma GeometryPartsText(s: string)
    requires ',' !in s
    ensures forall p | p in GeometryParts(s) :: Trimmed(p) && p != "" && ':' !in p && ',' !in p
  {
    FieldOf(s, ':', 0);
    FieldOf(s, ':', 1);
    FieldOf(s, ':', 2);
  }

  /** Trimmed parts that are not empty need no trimming once joined. */
  lemma JoinTrimmed(parts: seq<string>, sep: char)
    requires |parts| >= 1 && forall p | p in parts :: Trimmed(p) && p != ""
    ensures Trimmed(Join(parts, sep)) && Join(parts, sep) != ""
  {
    assert parts[0] in parts && parts[|parts| - 1] in parts;
    JoinEnds(parts, sep);
  }

  lemma DefaultTexts(one: string, layout: string)
    requires one == "1" && layout == "ltx"
    ensures ParseDimension(one) == Some(1) && ParsedLayout(layout) == ParsedLayout("")
  {
    assert Dec(1) == one;
    DimensionRoundTrip(1);
    assert layout[..2] == "lt" && "lt"[..1] == "l" && "l"[..0] == "";
    assert SeeAll("l") == See(NothingSeen, 'l');
    assert SeeAll("lt") == See(SeeAll("l").value, 't');
  }

  lemma DefaultColorTexts(on: string, off: string, emptyDefault: Color)
    requires on == "#10" && off == "#"
    ensures ParsedColor(on, emptyDefault) == Some(DEFAULT_ON) && ParsedColor(off, emptyDefault) == Some(DEFAULT_OFF)
  {
    TrimmingCanChangeAColor(emptyDefault);
    assert off[1..] == "";
  }

  lemma FullGeometry(s: string)
    requires ',' !in s
    ensures var t := Join(GeometryParts(s), ':');
      ParseGeometry(t) == ParseGeometry(s) && ',' !in t && Trimmed(t)
  {
    var parts := GeometryParts(s);
    GeometryPartsText(s);
    JoinTrimmed(parts, ':');
    SplitJoin(parts, ':');
    TrimAllTrimmed(parts);
    forall c | c in Join(parts, ':') ensures c != ',' { JoinChars(parts, ':', c); }
    DefaultTexts("1", "ltx");
  }

  lemma DefaultsAreFields()
    ensures IsField(DEFAULT_CHIP, ',') && IsField("#10", ',') && IsField("#", ',')
  {
  }

  lemma FullFieldsAreFields(line: string)
    ensures forall p | p in FullFields(line) :: IsField(p, ',')
  {
    FieldOf(line, ',', 0);
    FieldOf(line, ',', 1);
    FieldOf(line, ',', 2);
    FieldOf(line, ',', 3);
    FullGeometry(Field(TrimAll(Split(line, ',')), 0));
    DefaultsAreFields();
  }

  /** What the four fields stand for, given what those with nothing left out do. */
  lemma SameFields(f: seq<string>, full: seq<string>)
    requires |full| == 4 && ParseGeometry(full[0]) == ParseGeometry(Field(f, 0))
    requires Resolve(full[1]) == Resolve(Field(f, 1))
    requires ParsedColor(full[2], DEFAULT_ON) == ParsedColor(Field(f, 2), DEFAULT_ON)
    requires ParsedColor(full[3], DEFAULT_OFF) == ParsedColor(Field(f, 3), DEFAULT_OFF)
    ensures ParseFields(full) == ParseFields(f)
  {
  }

  lemma SameProtocol(s: string)
    ensures Resolve(TextOr(s, DEFAULT_CHIP)) == Resolve(s)
  {
  }

  lemma SameColors(s: string, on: string, off: string)
    requires on == "#10" && off == "#"
    ensures ParsedColor(TextOr(s, on), DEFAULT_ON) == ParsedColor(s, DEFAULT_ON)
    ensures ParsedColor(TextOr(s, off), DEFAULT_OFF) == ParsedColor(s, DEFAULT_OFF)
  {
    DefaultColorTexts(on, off, DEFAULT_ON);
    DefaultColorTexts(on, off, DEFAULT_OFF);
  }

  /**
   Every default, for every line: fields that are left out or blank, dimensions that are zero, white
   space around fields and fields after the last mean what the line says that spells them out.
   */
  lemma DefaultsSpelledOut(line: string)
    ensures Parsed(line) == Parsed(Full(line))
  {
    var f := TrimAll(Split(line, ','));
    FullFieldsAreFields(line);
    SplitFields(FullFields(line), ',');
    FieldOf(line, ',', 0);
    FullGeometry(Field(f, 0));
    SameProtocol(Field(f, 1));
    SameColors(Field(f, 2), "#10", "#");
    SameColors(Field(f, 3), "#10", "#");
    SameFields(f, FullFields(line));
  }

  /** A number alone is a row of that many LEDs, everything else at its default. */
  lemma NumberIsARow(n: nat)
    requires 1 <= n <= MAX_LEDS
    ensures Parsed(Dec(n)) ==
      Some(Config(n, 1, Layout(Left, Top, Row, false), DEFAULT_ON, DEFAULT_OFF, DEFAULT_TIMING, GRBW))
  {
    var s := Dec(n);
    DecPlain(n);
    SplitOne(s, ',');
    SplitOne(s, ':');
    TrimAllSpaceless([s]);
    DimensionRoundTrip(n);
    assert Field([s], 0) == s;
    EveryChipParses("");
    EveryChipIsDriven("");
  }

  // ---------------------------------------------------------------- the protocol

  /** The five parts of a protocol's text; numbers and depths may be written with leading zeros or a plus sign. */
  predicate ProtocolSpells(parts: seq<string>, t: Timing, p: Pattern) {
    && |parts| == 5 && (forall part | part in parts :: ':' !in part)
    && parts[0] == BitText(Symbol(t, true)) && parts[1] == BitText(Symbol(t, false))
    && ParseUInt(parts[2], 0xFFFF_FFFF) == Some(t.patternNs) && ParseUInt(parts[3], 0xFFFF_FFFF) == Some(t.resetNs)
    && ParsedPattern(parts[4]) == Some(p)
  }

  /**
   Which texts mean which protocol: exactly five parts, of which the first two are the symbols of a
   data "1" and a data "0" as they go over the wire.
   */
  lemma ProtocolMeaning(s: string, t: Timing, p: Pattern)
    ensures ParseProtocol(s) == Some((t, p)) <==>
      ValidTiming(t) && exists parts: seq<string> :: ProtocolSpells(parts, t, p) && s == Join(parts, ':')
  {
    var parts := Split(s, ':');
    SplitChars(s, ':');
    JoinSplit(s, ':');
    if ParseProtocol(s) == Some((t, p)) {
      TimingMeaning(parts[0], parts[1], parts[2], parts[3], t);
      assert ProtocolSpells(parts, t, p);
    }
    if ValidTiming(t) {
      forall parts: seq<string> | ProtocolSpells(parts, t, p) && s == Join(parts, ':')
        ensures ParseProtocol(s) == Some((t, p))
      {
        SplitJoin(parts, ':');
        TimingMeaning(parts[0], parts[1], parts[2], parts[3], t);
      }
    }
  }

  // ---------------------------------------------------------------- from the text to the LEDs

  /** The channels in the order of a colour's digit pairs. */
  const CHANNEL_LETTERS := "rgbwc"

  /** `value` is the top bits of the digit pair that the entry's letter stands for. */
  predicate CarriesPair(value: nat, entry: (Channel, nat), hex: string)
    requires entry.1 <= MAX_CHANNEL_BITS
  {
    && Letter(entry.0) in CHANNEL_LETTERS
    && forall j | 0 <= j < |CHANNEL_LETTERS| ::
         Letter(entry.0) == CHANNEL_LETTERS[j] ==> value == Pair(hex, j) / Pow2(MAX_CHANNEL_BITS - entry.1)
  }

  lemma ComponentIsPair(value: nat, entry: (Channel, nat), color: Color, text: string, emptyDefault: Color)
    requires entry.1 <= MAX_CHANNEL_BITS && Carries(value, entry, color)
    requires text != "" && ParsedColor(text, emptyDefault) == Some(color)
    ensures CarriesPair(value, entry, text[1..])
  {
    ColorMeaning(text, emptyDefault);
    assert CHANNEL_LETTERS == ['r', 'g', 'b', 'w', 'c'];
    match entry.0
    case Red => assert Letter(Red) == CHANNEL_LETTERS[0];
    case Green => assert Letter(Green) == CHANNEL_LETTERS[1];
    case Blue => assert Letter(Blue) == CHANNEL_LETTERS[2];
    case WarmWhite => assert Letter(WarmWhite) == CHANNEL_LETTERS[3];
    case ColdWhite => assert Letter(ColdWhite) == CHANNEL_LETTERS[4];
  }

  /** The text of the colour in which a line shows lit pixels, or the others. */
  function ColorField(line: string, lit: bool): string {
    FullFields(line)[if lit then 2 else 3]
  }

  lemma ColorFieldMeaning(line: string, c: Config, lit: bool)
    requires Parsed(line) == Some(c)
    ensures ColorField(line, lit) != ""
    ensures ParsedColor(ColorField(line, lit), DEFAULT_ON) == Some(if lit then c.onColor else c.offColor)
  {
    var f := TrimAll(Split(line, ','));
    var text := ColorField(line, lit);
    SameColors(Field(f, if lit then 2 else 3), "#10", "#");
    ColorMeaning(text, DEFAULT_ON);
    ColorMeaning(text, DEFAULT_OFF);
  }

  /** What a receiver finds in a packet is, entry by entry, the digit pair of the entry's letter. */
  predicate ReceivesPairs(bytes: Bytes, p: Pattern, t: Timing, hex: string)
    requires ValidPattern(p)
  {
    var values := DecodePacket(bytes, p, t);
    values.Some? && |values.value| == |p| && forall i | 0 <= i < |p| :: CarriesPair(values.value[i], p[i], hex)
  }

  lemma PacketOfText(color: Color, p: Pattern, t: Timing, text: string, emptyDefault: Color)
    requires ValidPattern(p) && ValidTiming(t) && t.high != t.low && (TotalBits(p) * t.resolution) % 8 == 0
    requires text != "" && ParsedColor(text, emptyDefault) == Some(color)
    ensures ReceivesPairs(Packet(color, p, t), p, t, text[1..])
  {
    PacketDecodes(color, p, t);
    var values := DecodePacket(Packet(color, p, t), p, t).value;
    forall i | 0 <= i < |p| ensures CarriesPair(values[i], p[i], text[1..]) {
      PacketCarries(color, p, t, i);
      ComponentIsPair(values[i], p[i], color, text, emptyDefault);
    }
  }

  /**
   From the command to the LEDs: in the frame of every accepted line, for every pixel, what a receiver
   finds in the pixel's slot are, entry by entry of the wire pattern, the digit pairs that the
   letters stand for, without the low bits an entry does not ask for: those of the on colour's text
   where the pixel is lit, of the off colour's elsewhere.
   */
  lemma LineReachesLed(line: string, c: Config, pixels: seq<bool>, x: nat, y: nat)
    requires Parsed(line) == Some(c) && Valid(c) && |pixels| == MAX_LEDS && c.timing.high != c.timing.low
    requires x < c.width && y < c.height
    ensures var text := ColorField(line, F.IsLit(c, pixels, x, y));
      text != "" && ReceivesPairs(F.PixelPacket(c, pixels, x, y), c.pattern, c.timing, text[1..])
  {
    var lit := F.IsLit(c, pixels, x, y);
    ColorFieldMeaning(line, c, lit);
    F.PacketOfColor(c, pixels, x, y);
    PacketOfText(F.PixelColor(c, pixels, x, y), c.pattern, c.timing, ColorField(line, lit), DEFAULT_ON);
  }
}
