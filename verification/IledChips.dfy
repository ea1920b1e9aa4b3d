/** The table of known chips and the default configuration (`CHIP_PROTOCOLS` and `Default` in src/iled.rs). */
module IledChips {
  import opened Prelude
  import opened Text
  import opened Bits
  import opened IledChain
  import opened IledWire
  import opened IledDecode
  import opened IledFields
  import opened Iled
  import opened IledGrammar

  const GRB: Pattern := [(Green, 8), (Red, 8), (Blue, 8)]
  const GRBW: Pattern := GRB + [(WarmWhite, 8)]
  const WS2816_TIMING := Timing(6, 4, 3, 1250, 100)
  const DEFAULT_TIMING := Timing(0xE, 0x8, 4, 1250, 600)
  const DEFAULT_LAYOUT := Layout(Left, Top, Row, true)

  /** `IledConfig::default`. */
  const DEFAULT_CONFIG := Config(1, 1, DEFAULT_LAYOUT, DEFAULT_ON, DEFAULT_OFF, DEFAULT_TIMING, GRBW)

  /** What a protocol field that is blank or names a chip stands for. */
  function ChipProtocol(name: string): Option<(Timing, Pattern)> {
    if name == "ws2816" then Some((WS2816_TIMING, GRB))
    else if name == "ws2816b" then Some((DEFAULT_TIMING, GRB))
    else if name == "" || name == DEFAULT_CHIP then Some((DEFAULT_TIMING, GRBW))
    else None
  }

  lemma PatternSnoc(p: Pattern, ch: Channel)
    ensures PrintPattern(p + [(ch, 8)]) == PrintPattern(p) + [Letter(ch), '8']
  {
    if p == [] {
      assert p + [(ch, 8)] == [(ch, 8)] && [(ch, 8)][1..] == [];
      assert Dec(8) == ['8'];
    } else {
      PatternSnoc(p[1..], ch);
      assert (p + [(ch, 8)])[1..] == p[1..] + [(ch, 8)];
    }
  }

  lemma PatternTexts()
    ensures PrintPattern(GRB) == "g8r8b8" && PrintPattern(GRBW) == "g8r8b8w8"
  {
    PatternSnoc([], Green);
    PatternSnoc([(Green, 8)], Red);
    PatternSnoc([(Green, 8), (Red, 8)], Blue);
    PatternSnoc(GRB, WarmWhite);
  }

  lemma PatternBits()
    ensures TotalBits(GRB) == 24 && TotalBits(GRBW) == 32
  {
    assert GRBW[..3] == GRB && GRB[..2] == [(Green, 8), (Red, 8)] && GRB[..2][..1] == [(Green, 8)];
    assert TotalBits([(Green, 8)]) == 8 && TotalBits([(Green, 8), (Red, 8)]) == 16;
  }

  /** Every symbol of a chip is one pulse, of all but the last part of the bit's time or of the first alone. */
  lemma ChipTiming(t: Timing)
    requires t == DEFAULT_TIMING || t == WS2816_TIMING
    ensures ValidTiming(t) && IsPulse(Symbol(t, true), t.resolution - 1) && IsPulse(Symbol(t, false), 1)
  {
    assert Pow2(4) == 16;
  }

  lemma NumberTexts()
    ensures Dec(100) == "100" && Dec(600) == "600" && Dec(1250) == "1250"
  {
    assert Dec(10) == "10" && Dec(60) == "60" && Dec(12) == "12" && Dec(125) == "125";
  }

  /** The parts a chip's protocol is printed as. */
  lemma ChipParts(t: Timing, p: Pattern)
    requires t == DEFAULT_TIMING || t == WS2816_TIMING
    ensures t == DEFAULT_TIMING ==> ProtocolParts(t, p) == ["1110", "1000", "1250", "600", PrintPattern(p)]
    ensures t == WS2816_TIMING ==> ProtocolParts(t, p) == ["110", "100", "1250", "100", PrintPattern(p)]
  {
    ChipTiming(t);
    NumberTexts();
    var high, low := BitText(Symbol(t, true)), BitText(Symbol(t, false));
    assert t == DEFAULT_TIMING ==> high == "1110" && low == "1000";
    assert t == WS2816_TIMING ==> high == "110" && low == "100";
  }

  /** A protocol field that is blank or names a chip stands for the text that chip's protocol is printed as. */
  lemma ResolvesToPrint(name: string)
    requires ChipProtocol(name).Some?
    ensures var (t, p) := ChipProtocol(name).value; Resolve(name) == Join(ProtocolParts(t, p), ':')
  {
    PatternTexts();
    ChipParts(ChipProtocol(name).value.0, ChipProtocol(name).value.1);
  }

  lemma ChipIsValid(name: string, t: Timing, p: Pattern)
    requires ChipProtocol(name) == Some((t, p))
    ensures ValidTiming(t) && ValidPattern(p)
  {
    ChipTiming(t);
  }

  /** Every entry of the table parses, and to what its chip takes; a blank field is the default chip's. */
  lemma EveryChipParses(name: string)
    requires name == "" || LookupChip(name).Some?
    ensures ChipProtocol(name).Some? && ParseProtocol(Resolve(name)) == ChipProtocol(name)
  {
    var (t, p) := ChipProtocol(name).value;
    ChipIsValid(name, t, p);
    ResolvesToPrint(name);
    ProtocolRoundTrip(t, p);
  }

  /** Every chip's packets are whole bytes, and each of its symbols is one pulse, the two of different length. */
  lemma EveryChipIsDriven(name: string)
    requires name == "" || LookupChip(name).Some?
    ensures ChipProtocol(name).Some?
    ensures var (t, p) := ChipProtocol(name).value;
      && TotalBits(p) * t.resolution % 8 == 0 && t.resolution >= 3 && t.high != t.low
      && IsPulse(Symbol(t, true), t.resolution - 1) && IsPulse(Symbol(t, false), 1)
  {
    PatternBits();
    ChipTiming(ChipProtocol(name).value.0);
  }

  /** A chip name is all a line needs to say about the protocol: only the chain's length can still be refused. */
  lemma ChipLine(f: seq<string>, g: (nat, nat, Layout), on: Color, off: Color)
    requires |f| == 4 && (f[1] == "" || LookupChip(f[1]).Some?)
    requires ParseGeometry(f[0]) == Some(g)
    requires ParsedColor(f[2], DEFAULT_ON) == Some(on) && ParsedColor(f[3], DEFAULT_OFF) == Some(off)
    ensures ChipProtocol(f[1]).Some?
    ensures var (t, p) := ChipProtocol(f[1]).value;
      ParseFields(f) == if g.0 * g.1 > MAX_LEDS then None else Some(Config(g.0, g.1, g.2, on, off, t, p))
  {
    EveryChipParses(f[1]);
    EveryChipIsDriven(f[1]);
    GivenFields(f, g, ChipProtocol(f[1]).value, on, off);
  }

  // ---------------------------------------------------------------- the default

  lemma SerpentineOnly(s: string)
    requires s == "i"
    ensures ParsedLayout(s) == Some(DEFAULT_LAYOUT)
  {
    assert |s| == 1 && s[0] == 'i' && s[..0] == "";
    assert SeeAll(s[..0]) == Some(NothingSeen);
  }

  lemma DefaultGeometry(s: string)
    requires s == "1:1:i"
    ensures ParseGeometry(s) == Some((1, 1, DEFAULT_LAYOUT))
  {
    var g := ["1", "1", "i"];
    assert g[1..] == ["1", "i"] && g[1..][1..] == ["i"];
    assert Join(g, ':') == s;
    SplitJoin(g, ':');
    TrimAllSpaceless(g);
    assert Dec(1) == g[0];
    DimensionRoundTrip(1);
    SerpentineOnly(g[2]);
    GivenGeometry(s, g, 1, 1, DEFAULT_LAYOUT);
  }

  lemma DefaultCommandFields(line: string)
    requires line == "1:1:i,,,"
    ensures TrimAll(Split(line, ',')) == ["1:1:i", "", "", ""]
  {
    var fields := ["1:1:i", "", "", ""];
    assert Join(fields[2..], ',') == ",";
    assert Join(fields[1..], ',') == ",,";
    assert Join(fields, ',') == "1:1:i,,,";
    SplitJoin(fields, ',');
    TrimAllSpaceless(fields);
  }

  /** The command that the default configuration is documented to match does give it. */
  lemma DefaultCommand(line: string)
    requires line == "1:1:i,,,"
    ensures Parsed(line) == Some(DEFAULT_CONFIG) && Valid(DEFAULT_CONFIG)
  {
    DefaultCommandFields(line);
    DefaultGeometry("1:1:i");
    ChipLine(["1:1:i", "", "", ""], (1, 1, DEFAULT_LAYOUT), DEFAULT_ON, DEFAULT_OFF);
    ParsedIsValid(line);
  }

  lemma DefaultIsValid()
    ensures Valid(DEFAULT_CONFIG)
  {
    ChipTiming(DEFAULT_TIMING);
    PatternBits();
  }
}
