/** The whole "#iled" configuration text (`IledConfig::parse` and `to_csv` in src/iled.rs). */
module IledGrammar {
  import opened Prelude
  import opened Text
  import opened Bits
  import opened IledChain
  import opened IledWire
  import opened IledFields
  import opened Iled
  import Arith

  const USIZE_MAX := 0xFFFF_FFFF
  const DEFAULT_ON := Color(16, 0, 0, 0, 0)
  const DEFAULT_OFF := Color(0, 0, 0, 0, 0)
  const DEFAULT_CHIP := "ws2816b_rgbw"

  /** `lookup_chip_protocol`; a table entry's text is its five parts with colons between them. */
  function LookupChip(name: string): Option<string> {
    if name == "ws2816" then Some(Join(["110", "100", "1250", "100", "g8r8b8"], ':'))
    else if name == "ws2816b" then Some(Join(["1110", "1000", "1250", "600", "g8r8b8"], ':'))
    else if name == "ws2816b_rgbw" then Some(Join(["1110", "1000", "1250", "600", "g8r8b8w8"], ':'))
    else None
  }

  /** The protocol text a protocol field stands for. */
  function Resolve(protocol: string): string {
    if protocol == "" then Or(LookupChip(DEFAULT_CHIP), "") else Or(LookupChip(protocol), protocol)
  }

  /** `parse_dimension`. */
  function ParseDimension(s: string): (n: Option<nat>)
    ensures n.Some? ==> 1 <= n.value <= USIZE_MAX
  {
    if s == "" then Some(1)
    else match ParseUInt(s, USIZE_MAX)
      case None => None
      case Some(n) => Some(if n == 0 then 1 else n)
  }

  /** Missing trailing fields read as empty; further ones are ignored. */
  function Field(fields: seq<string>, i: nat): string {
    if i < |fields| then fields[i] else ""
  }

  /** The geometry field: `<width>:<height>:<layout>`. */
  function ParseGeometry(s: string): (g: Option<(nat, nat, Layout)>)
    ensures g.Some? ==> g.value.0 >= 1 && g.value.1 >= 1
  {
    var f := TrimAll(Split(s, ':'));
    var width, height := ParseDimension(Field(f, 0)), ParseDimension(Field(f, 1));
    var layout := ParsedLayout(Field(f, 2));
    if width.None? || height.None? || layout.None? then None else Some((width.value, height.value, layout.value))
  }

  function ParseProtocolParts(parts: seq<string>): (p: Option<(Timing, Pattern)>)
    ensures p.Some? ==> ValidTiming(p.value.0) && ValidPattern(p.value.1)
  {
    if |parts| != 5 then None
    else
      var timing, pattern := ParseTiming(parts[0], parts[1], parts[2], parts[3]), ParsedPattern(parts[4]);
      if timing.None? || pattern.None? then None else Some((timing.value, pattern.value))
  }

  /** The protocol field, once resolved: exactly five parts, not trimmed one by one. */
  function ParseProtocol(s: string): (p: Option<(Timing, Pattern)>)
    ensures p.Some? ==> ValidTiming(p.value.0) && ValidPattern(p.value.1)
  {
    ParseProtocolParts(Split(s, ':'))
  }

  /** The checks that span fields: the chain's length, and packets of whole bytes. */
  function Assemble(g: (nat, nat, Layout), p: (Timing, Pattern), on: Color, off: Color): Option<Config> {
    if g.0 * g.1 > MAX_LEDS || (TotalBits(p.1) * p.0.resolution) % 8 != 0 then None
    else Some(Config(g.0, g.1, g.2, on, off, p.0, p.1))
  }

  function ParseFields(fields: seq<string>): Option<Config> {
    var geometry := ParseGeometry(Field(fields, 0));
    var protocol := ParseProtocol(Resolve(Field(fields, 1)));
    var on := ParsedColor(Field(fields, 2), DEFAULT_ON);
    var off := ParsedColor(Field(fields, 3), DEFAULT_OFF);
    if geometry.None? || protocol.None? || on.None? || off.None? then None
    else Assemble(geometry.value, protocol.value, on.value, off.value)
  }

  /** What `IledConfig::parse` accepts, and what it makes of it. */
  function Parsed(line: string): Option<Config> {
    ParseFields(TrimAll(Split(line, ',')))
  }

  /** `IledConfig::parse`. */
  method Parse(line: string) returns (config: Option<Config>)
    ensures config == Parsed(line)
  {
    var fields := TrimAll(Split(line, ','));
    var geometry := TrimAll(Split(Field(fields, 0), ':'));
    var width := ParseDimension(Field(geometry, 0));
    if width.None? { return None; }
    var height := ParseDimension(Field(geometry, 1));
    if height.None? { return None; }
    var layout := ParseLayout(Field(geometry, 2));
    if layout.None? { return None; }
    var parts := Split(Resolve(Field(fields, 1)), ':');
    if |parts| != 5 { return None; }
    var timing := ParseTiming(parts[0], parts[1], parts[2], parts[3]);
    if timing.None? { return None; }
    var pattern := ParsePattern(parts[4]);
    if pattern.None? { return None; }
    var on := ParseColor(Field(fields, 2), DEFAULT_ON);
    if on.None? { return None; }
    var off := ParseColor(Field(fields, 3), DEFAULT_OFF);
    if off.None? { return None; }
    config := Assemble((width.value, height.value, layout.value), (timing.value, pattern.value), on.value, off.value);
  }

  /** Every configuration `parse` returns is one the frame is sized for. */
  lemma ParsedIsValid(line: string)
    ensures Parsed(line).Some? ==> Valid(Parsed(line).value)
  {
  }

  // ---------------------------------------------------------------- printing

  function GeometryParts(c: Config): seq<string> {
    [Dec(c.width), Dec(c.height), PrintLayout(c.layout)]
  }

  function ProtocolParts(t: Timing, p: Pattern): seq<string> {
    TimingParts(t) + [PrintPattern(p)]
  }

  function ConfigParts(c: Config): seq<string> {
    [Join(GeometryParts(c), ':'), Join(ProtocolParts(c.timing, c.pattern), ':'),
     PrintColor(c.onColor), PrintColor(c.offColor)]
  }

  /** `to_csv`. */
  function Print(c: Config): string {
    Join(ConfigParts(c), ',')
  }

  /** Joining plain parts with colons gives a field that holds no comma and needs no trimming. */
  lemma JoinedField(parts: seq<string>)
    requires |parts| >= 1 && forall p | p in parts :: Plain(p)
    ensures var s := Join(parts, ':');
      ',' !in s && Spaceless(s) && Split(s, ':') == parts && TrimAll(Split(s, ':')) == parts
    ensures |parts| >= 2 ==> ':' in Join(parts, ':')
  {
    var s := Join(parts, ':');
    forall c | c in s ensures c != ',' && !IsSpace(c) {
      JoinChars(parts, ':', c);
    }
    SplitJoin(parts, ':');
    TrimAllSpaceless(parts);
  }

  lemma DimensionRoundTrip(n: nat)
    requires 1 <= n <= USIZE_MAX
    ensures ParseDimension(Dec(n)) == Some(n)
  {
    ParseDec(n, USIZE_MAX);
  }

  /** Three sub-fields that parse. */
  lemma GivenGeometry(s: string, f: seq<string>, width: nat, height: nat, layout: Layout)
    requires TrimAll(Split(s, ':')) == f && |f| == 3
    requires ParseDimension(f[0]) == Some(width) && ParseDimension(f[1]) == Some(height)
    requires ParsedLayout(f[2]) == Some(layout)
    ensures ParseGeometry(s) == Some((width, height, layout))
  {
  }

  lemma GeometryRoundTrip(c: Config)
    requires Valid(c) && c.width <= MAX_LEDS && c.height <= MAX_LEDS
    ensures ParseGeometry(ConfigParts(c)[0]) == Some((c.width, c.height, c.layout))
    ensures ',' !in ConfigParts(c)[0] && Spaceless(ConfigParts(c)[0])
  {
    var parts := GeometryParts(c);
    DecPlain(c.width);
    DecPlain(c.height);
    DimensionRoundTrip(c.width);
    DimensionRoundTrip(c.height);
    LayoutRoundTrip(c.layout);
    JoinedField(parts);
    GivenGeometry(Join(parts, ':'), parts, c.width, c.height, c.layout);
  }

  /** A printed protocol is read back as it is: it is not blank and no chip is called that. */
  lemma ProtocolRoundTrip(t: Timing, p: Pattern)
    requires ValidTiming(t) && ValidPattern(p)
    ensures var s := Join(ProtocolParts(t, p), ':');
      && Resolve(s) == s && LookupChip(s).None? && s != ""
      && ParseProtocol(s) == Some((t, p)) && ',' !in s && Spaceless(s)
  {
    TimingRoundTrip(t);
    PatternRoundTrip(p);
    PatternPlain(p);
    JoinedField(ProtocolParts(t, p));
    NoChipHasAColon(Join(ProtocolParts(t, p), ':'));
  }

  lemma NoChipHasAColon(s: string)
    requires ':' in s
    ensures LookupChip(s).None? && Resolve(s) == s
  {
  }

  lemma DimensionBound(c: Config)
    requires Valid(c)
    ensures c.width <= MAX_LEDS && c.height <= MAX_LEDS
  {
    Arith.MulMonotone(c.width, 1, c.height);
    Arith.MulMonotone(c.height, 1, c.width);
  }

  /** Four fields that parse. */
  lemma GivenFields(f: seq<string>, g: (nat, nat, Layout), p: (Timing, Pattern), on: Color, off: Color)
    requires |f| == 4 && ParseGeometry(f[0]) == Some(g) && ParseProtocol(Resolve(f[1])) == Some(p)
    requires ParsedColor(f[2], DEFAULT_ON) == Some(on) && ParsedColor(f[3], DEFAULT_OFF) == Some(off)
    ensures ParseFields(f) == Assemble(g, p, on, off)
  {
  }

  /** No printed field holds a comma or white space, and each is read back on its own. */
  lemma FieldRoundTrips(c: Config)
    requires Valid(c)
    ensures forall p | p in ConfigParts(c) :: ',' !in p && Spaceless(p)
    ensures ParseGeometry(ConfigParts(c)[0]) == Some((c.width, c.height, c.layout))
    ensures ParseProtocol(Resolve(ConfigParts(c)[1])) == Some((c.timing, c.pattern))
    ensures ParsedColor(ConfigParts(c)[2], DEFAULT_ON) == Some(c.onColor)
    ensures ParsedColor(ConfigParts(c)[3], DEFAULT_OFF) == Some(c.offColor)
  {
    DimensionBound(c);
    GeometryRoundTrip(c);
    ProtocolRoundTrip(c.timing, c.pattern);
    ColorRoundTrip(c.onColor, DEFAULT_ON);
    ColorRoundTrip(c.offColor, DEFAULT_OFF);
  }

  /** Parsing the printed form of any configuration `parse` can return gives it back. */
  lemma RoundTrip(c: Config)
    requires Valid(c)
    ensures Parsed(Print(c)) == Some(c)
  {
    var parts := ConfigParts(c);
    FieldRoundTrips(c);
    SplitJoin(parts, ',');
    TrimAllSpaceless(parts);
    GivenFields(parts, (c.width, c.height, c.layout), (c.timing, c.pattern), c.onColor, c.offColor);
  }

  /** A printed configuration is not blank. */
  lemma PrintIsNotBlank(c: Config)
    requires Valid(c)
    ensures Trim(Print(c)) != ""
  {
    var parts := ConfigParts(c);
    FieldRoundTrips(c);
    forall ch | ch in Print(c) ensures !IsSpace(ch) {
      JoinChars(parts, ',', ch);
    }
    TrimSpaceless(Print(c));
    JoinLength(parts, ',');
  }

  /** Printing what was parsed is a canonical form: doing it again changes nothing. */
  lemma PrintIsCanonical(line: string)
    requires Parsed(line).Some?
    ensures var text := Print(Parsed(line).value);
      Parsed(text) == Parsed(line) && Print(Parsed(text).value) == text
  {
    ParsedIsValid(line);
    RoundTrip(Parsed(line).value);
  }
}
