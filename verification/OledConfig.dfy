/**
 The OLED's configuration (src/oled.rs): its grammar, the controller chips, the draw area in
 display RAM, and the byte header that addresses one page of it.
 */
module OledConfig {
  import opened Prelude
  import opened Text

  const NVS_VALUE_MAX_LEN := 48
  const MAX_COLS := 132
  const MAX_SEGMENTS := 8
  const MAX_HEADER_LEN := 16
  const SEGMENT_BUF_LEN := MAX_HEADER_LEN + MAX_COLS

  datatype Chip = Ssd1306 | Sh1106

  function ChipName(chip: Chip): string {
    match chip case Ssd1306 => "ssd1306" case Sh1106 => "sh1106"
  }

  function ChipFromName(s: string): Option<Chip> {
    if s == "ssd1306" then Some(Ssd1306) else if s == "sh1106" then Some(Sh1106) else None
  }

  function Sizes(chip: Chip): seq<(nat, nat)> {
    match chip
    case Ssd1306 => [(128, 64), (128, 32), (96, 16), (72, 40), (64, 48), (64, 32)]
    case Sh1106 => [(128, 64)]
  }

  /** Display RAM in pixels: columns and rows. */
  function RamSize(chip: Chip): (nat, nat) {
    match chip case Ssd1306 => (128, 64) case Sh1106 => (132, 64)
  }

  /** Where a panel's glass usually starts in display RAM. */
  function RamOffset(chip: Chip, width: nat, height: nat): (nat, nat)
    requires width <= 128
  {
    match chip
    case Ssd1306 =>
      if (width, height) == (72, 40) then (28, 0)
      else if (width, height) == (64, 48) || (width, height) == (64, 32) then (32, 0)
      else (0, 0)
    case Sh1106 => ((132 - width) / 2, 0)
  }

  datatype Config = Config(chip: Chip, width: nat, height: nat, x: nat, y: nat, rotation: nat)

  /** `OledConfig::default`. */
  const DEFAULT := Config(Ssd1306, 128, 64, 0, 0, 0)

  /** `parse` tells a disabled display from a value it refuses. */
  datatype Outcome = Disabled | Refused | Enabled(config: Config)

  /** The configurations `parse` can return. */
  predicate Valid(c: Config) {
    && (c.width, c.height) in Sizes(c.chip)
    && c.x < RamSize(c.chip).0 && c.y < RamSize(c.chip).1 && c.y % 8 == 0
    && c.rotation in {0, 90, 180, 270}
  }

  // ---------------------------------------------------------------- the grammar

  function ParseFields(f: seq<string>): Outcome
    requires |f| >= 1
  {
    match ChipFromName(f[0])
    case None => Disabled
    case Some(chip) =>
      if |f| < 5 then Refused
      else
        var w, h := ParseUInt(f[1], 255), ParseUInt(f[2], 255);
        var x, y := ParseUInt(f[3], 65535), ParseUInt(f[4], 65535);
        var rotation := if |f| > 5 then ParseUInt(f[5], 65535) else Some(0);
        if w.None? || h.None? || x.None? || y.None? || rotation.None? || |f| > 6 then Refused
        else
          var c := Config(chip, w.value, h.value, x.value, y.value, rotation.value);
          if Valid(c) then Enabled(c) else Refused
  }

  /** `OledConfig::parse`. */
  function Parse(s: string): Outcome {
    ParseFields(TrimAll(Split(Trim(s), ':')))
  }

  function Parts(c: Config): (parts: seq<string>)
    ensures |parts| >= 1
  {
    if c.rotation == 0 then [ChipName(c.chip), Dec(c.width), Dec(c.height), Dec(c.x), Dec(c.y)]
    else [ChipName(c.chip), Dec(c.width), Dec(c.height), Dec(c.x), Dec(c.y), Dec(c.rotation)]
  }

  /** `OledConfig::to_nvs_string`. */
  function Print(c: Config): string {
    Join(Parts(c), ':')
  }

  lemma ParsedIsValid(s: string)
    ensures Parse(s).Enabled? ==> Valid(Parse(s).config)
  {
  }

  /** A value is taken to disable the display exactly when its first field names no chip. */
  lemma DisabledIffNoChip(s: string)
    ensures Parse(s) == Disabled <==> ChipFromName(Trim(Split(Trim(s), ':')[0])).None?
  {
  }

  lemma SizesFit(c: Config)
    requires Valid(c)
    ensures 1 <= c.width <= 128 && 1 <= c.height <= 64 && c.height % 8 == 0 && c.x < 132 && c.y < 64
  {
    assert forall size | size in Sizes(c.chip) :: 1 <= size.0 <= 128 && 1 <= size.1 <= 64 && size.1 % 8 == 0;
  }

  lemma PartsPlain(c: Config)
    requires Valid(c)
    ensures forall p | p in Parts(c) :: Plain(p)
  {
    DecPlain(c.width);
    DecPlain(c.height);
    DecPlain(c.x);
    DecPlain(c.y);
    DecPlain(c.rotation);
  }

  /** Fields that parse to a valid configuration's numbers. */
  lemma FieldsOf(f: seq<string>, c: Config)
    requires Valid(c) && (|f| == 6 || (|f| == 5 && c.rotation == 0)) && ChipFromName(f[0]) == Some(c.chip)
    requires ParseUInt(f[1], 255) == Some(c.width) && ParseUInt(f[2], 255) == Some(c.height)
    requires ParseUInt(f[3], 65535) == Some(c.x) && ParseUInt(f[4], 65535) == Some(c.y)
    requires |f| == 6 ==> ParseUInt(f[5], 65535) == Some(c.rotation)
    ensures ParseFields(f) == Enabled(c)
  {
  }

  lemma FieldsRoundTrip(c: Config)
    requires Valid(c)
    ensures ParseFields(Parts(c)) == Enabled(c)
  {
    NumbersRoundTrip(c);
    ChipNameRoundTrip(c.chip);
    FieldsOf(Parts(c), c);
  }

  lemma NumbersRoundTrip(c: Config)
    requires Valid(c)
    ensures ParseUInt(Dec(c.width), 255) == Some(c.width) && ParseUInt(Dec(c.height), 255) == Some(c.height)
    ensures ParseUInt(Dec(c.x), 65535) == Some(c.x) && ParseUInt(Dec(c.y), 65535) == Some(c.y)
    ensures ParseUInt(Dec(c.rotation), 65535) == Some(c.rotation)
  {
    SizesFit(c);
    ParseDec(c.width, 255);
    ParseDec(c.height, 255);
    ParseDec(c.x, 65535);
    ParseDec(c.y, 65535);
    ParseDec(c.rotation, 65535);
  }

  lemma ChipNameRoundTrip(chip: Chip)
    ensures ChipFromName(ChipName(chip)) == Some(chip)
  {
  }

  /** Parsing the printed form of any configuration `parse` can return gives it back. */
  lemma RoundTrip(c: Config)
    requires Valid(c)
    ensures Parse(Print(c)) == Enabled(c)
  {
    PartsPlain(c);
    forall ch | ch in Print(c) ensures !IsSpace(ch) {
      JoinChars(Parts(c), ':', ch);
    }
    TrimSpaceless(Print(c));
    SplitJoin(Parts(c), ':');
    TrimAllSpaceless(Parts(c));
    FieldsRoundTrip(c);
  }

  /** Printing what was parsed is a canonical form. */
  lemma PrintIsCanonical(s: string)
    requires Parse(s).Enabled?
    ensures var text := Print(Parse(s).config);
      Parse(text) == Parse(s) && Print(Parse(text).config) == text
  {
    ParsedIsValid(s);
    RoundTrip(Parse(s).config);
  }

  /** The text of a configuration always fits what is kept in flash. */
  lemma PrintFits(c: Config)
    requires Valid(c)
    ensures 1 <= |Print(c)| <= NVS_VALUE_MAX_LEN
  {
    SizesFit(c);
    assert Pow10(3) == 1000 by { assert Pow10(1) == 10 && Pow10(2) == 100; }
    DecLength(c.width, 3);
    DecLength(c.height, 3);
    DecLength(c.x, 3);
    DecLength(c.y, 3);
    DecLength(c.rotation, 3);
    JoinBound(Parts(c), ':', 3);
    JoinLength(Parts(c), ':');
  }

  /** The fields of a value, which spell a configuration; a rotation that is left out is none. */
  predicate SpellsConfig(f: seq<string>, c: Config) {
    && (|f| == 6 || (|f| == 5 && c.rotation == 0)) && f[0] == ChipName(c.chip)
    && ParseUInt(f[1], 255) == Some(c.width) && ParseUInt(f[2], 255) == Some(c.height)
    && ParseUInt(f[3], 65535) == Some(c.x) && ParseUInt(f[4], 65535) == Some(c.y)
    && (|f| == 6 ==> ParseUInt(f[5], 65535) == Some(c.rotation))
  }

  lemma ChipOfName(s: string, chip: Chip)
    ensures ChipFromName(s) == Some(chip) <==> s == ChipName(chip)
  {
    assert |"ssd1306"| == 7 && |"sh1106"| == 6;
  }

  /**
   Which values mean which configuration: the fields spell a panel of the chip, an offset inside its
   RAM that starts on a page, and quarter turns.
   */
  lemma ParseMeaning(s: string, c: Config)
    ensures Parse(s) == Enabled(c) <==>
      && SpellsConfig(TrimAll(Split(Trim(s), ':')), c)
      && (c.width, c.height) in Sizes(c.chip) && c.x < RamSize(c.chip).0 && c.y < RamSize(c.chip).1
      && (exists page: nat :: c.y == 8 * page) && (exists turns: nat :: turns < 4 && c.rotation == 90 * turns)
  {
    var f := TrimAll(Split(Trim(s), ':'));
    ChipOfName(f[0], c.chip);
    if c.y % 8 == 0 { assert c.y == 8 * (c.y / 8); }
    if c.rotation in {0, 90, 180, 270} { assert c.rotation == 90 * (c.rotation / 90); }
  }

  /** The default is written as it is documented. */
  lemma DefaultText(text: string)
    requires text == "ssd1306:128:64:0:0"
    ensures Valid(DEFAULT) && Print(DEFAULT) == text
  {
    assert Dec(1) == "1" && Dec(12) == "12" && Dec(128) == "128";
    assert Dec(6) == "6" && Dec(64) == "64" && Dec(0) == "0";
    var p := Parts(DEFAULT);
    assert p == ["ssd1306", "128", "64", "0", "0"];
    assert Join(p[3..], ':') == "0:0";
    assert Join(p[2..], ':') == "64:0:0";
    assert Join(p[1..], ':') == "128:64:0:0";
  }

  // ---------------------------------------------------------------- the draw area

  /** A rectangle of display RAM, in columns and whole pages. */
  datatype Area = Area(col: nat, page: nat, cols: nat, pages: nat)

  /** `u8::saturating_add`. */
  function SatAdd(a: nat, b: nat): nat {
    if a + b > 255 then 255 else a + b
  }

  function SatSub(a: nat, b: nat): nat {
    if a < b then 0 else a - b
  }

  function Min(a: nat, b: nat): nat {
    if a < b then a else b
  }

  /** `OledConfig::draw_area`. */
  function DrawArea(c: Config): Area
    requires Valid(c)
  {
    SizesFit(c);
    var (ramCols, ramRows) := RamSize(c.chip);
    var (offX, offY) := RamOffset(c.chip, c.width, c.height);
    var col, row := SatAdd(offX, c.x % 256), SatAdd(offY, c.y % 256);
    Area(col, row / 8, Min(c.width, SatSub(ramCols, col)), Min(c.height, SatSub(ramRows, row)) / 8)
  }

  /**
   The draw area lies within display RAM and within the panel, in whole pages; it is cut off
   at the RAM's edge and nowhere else, and has columns unless it starts past that edge.
   */
  lemma DrawAreaFits(c: Config)
    requires Valid(c)
    ensures var a := DrawArea(c);
      && (a.cols > 0 ==> a.col + a.cols <= RamSize(c.chip).0)
      && a.page + a.pages <= RamSize(c.chip).1 / 8 == MAX_SEGMENTS
      && a.cols <= c.width && 1 <= a.pages && a.pages * 8 <= c.height
      && (a.cols < c.width ==> a.col + a.cols == RamSize(c.chip).0 || a.cols == 0)
      && (a.cols == 0 <==> a.col >= RamSize(c.chip).0)
      && (a.pages * 8 < c.height ==> a.page + a.pages == MAX_SEGMENTS)
  {
    SizesFit(c);
  }

  /** It starts where the glass usually does plus the configured offset: no addition ever saturates. */
  lemma DrawAreaStart(c: Config)
    requires Valid(c) && c.width <= 128
    ensures var (offX, offY) := RamOffset(c.chip, c.width, c.height);
      DrawArea(c).col == offX + c.x && 8 * DrawArea(c).page == offY + c.y
  {
    SizesFit(c);
  }

  /** Every panel's glass is in the middle of the RAM's columns, but for the 96x16 one, which starts at its edge. */
  lemma GlassIsCentred(c: Config)
    requires Valid(c) && c.width <= 128
    ensures var (offX, offY) := RamOffset(c.chip, c.width, c.height);
      offY == 0 && if (c.width, c.height) == (96, 16) then offX == 0 else 2 * offX + c.width == RamSize(c.chip).0
  {
  }

  // ---------------------------------------------------------------- addressing a page

  const CONTROL_COMMAND_SINGLE: Byte := 0x80
  const CONTROL_DATA: Byte := 0x40

  /** Each command byte behind its own control byte. */
  function Singles(commands: Bytes): Bytes {
    if commands == [] then [] else [CONTROL_COMMAND_SINGLE, commands[0]] + Singles(commands[1..])
  }

  /** The command bytes that point display RAM at page `page` of `a`. */
  function Addressing(chip: Chip, a: Area, page: nat): (commands: Bytes)
    requires 1 <= a.cols && a.col + a.cols <= MAX_COLS && page < a.pages && a.page + a.pages <= MAX_SEGMENTS
  {
    match chip
    case Ssd1306 => [0x21, a.col, a.col + a.cols - 1, 0x22, a.page + page, a.page + page]
    // the operands of each `|` share no bit
    case Sh1106 => [0xB0 + (a.page + page), a.col % 16, 0x10 + a.col / 16]
  }

  /** `segment_header`. */
  function Header(chip: Chip, a: Area, page: nat): Bytes
    requires 1 <= a.cols && a.col + a.cols <= MAX_COLS && page < a.pages && a.page + a.pages <= MAX_SEGMENTS
  {
    Singles(Addressing(chip, a, page)) + [CONTROL_DATA]
  }

  // ---------------------------------------------------------------- the controller's side

  /** What one I2C write asks of the controller: command bytes, and data for display RAM. */
  datatype Transfer = Transfer(commands: Bytes, data: Option<Bytes>) | Garbled

  /** Control bytes: 0x80 one command follows, 0x00 only commands follow, 0x40 only data follows. */
  function Receive(buf: Bytes): Transfer {
    if |buf| >= 2 && buf[0] == CONTROL_COMMAND_SINGLE then
      match Receive(buf[2..])
      case Garbled => Garbled
      case Transfer(commands, data) => Transfer([buf[1]] + commands, data)
    else if |buf| >= 1 && buf[0] == CONTROL_DATA then Transfer([], Some(buf[1..]))
    else if |buf| >= 1 && buf[0] == 0x00 then Transfer(buf[1..], None)
    else Garbled
  }

  /** Data stored in one page of display RAM from a column on. */
  datatype Store = Store(page: nat, col: nat, data: Bytes)

  /**
   A page write as the controller takes it. SSD1306, horizontal addressing: a column and a page
   window, of one page here, filled exactly. SH1106: page, column nibbles, then data to the right.
   */
  function Stored(chip: Chip, t: Transfer): Option<Store> {
    if t.Garbled? || t.data.None? then None
    else
      var c, data := t.commands, t.data.value;
      match chip
      case Ssd1306 =>
        if |c| == 6 && c[0] == 0x21 && c[3] == 0x22 && c[4] == c[5] && |data| == c[2] as int - c[1] + 1
        then Some(Store(c[4], c[1], data)) else None
      case Sh1106 =>
        if |c| == 3 && 0xB0 <= c[0] <= 0xB7 && c[1] < 0x10 && 0x10 <= c[2] < 0x20
           && (c[2] - 0x10) * 16 + c[1] + |data| <= MAX_COLS
        then Some(Store(c[0] - 0xB0, (c[2] - 0x10) * 16 + c[1], data)) else None
  }

  lemma {:induction false} ReceiveSingles(commands: Bytes, data: Bytes)
    ensures Receive(Singles(commands) + [CONTROL_DATA] + data) == Transfer(commands, Some(data))
  {
    var buf := Singles(commands) + [CONTROL_DATA] + data;
    if commands == [] {
      assert buf == [CONTROL_DATA] + data;
      assert buf[1..] == data;
    } else {
      ReceiveSingles(commands[1..], data);
      assert buf[2..] == Singles(commands[1..]) + [CONTROL_DATA] + data;
      assert [commands[0]] + commands[1..] == commands;
    }
  }

  lemma StoredAddressing(chip: Chip, a: Area, page: nat, data: Bytes)
    requires 1 <= a.cols && a.col + a.cols <= MAX_COLS && page < a.pages && a.page + a.pages <= MAX_SEGMENTS
    requires |data| == a.cols
    ensures Stored(chip, Transfer(Addressing(chip, a, page), Some(data))) == Some(Store(a.page + page, a.col, data))
  {
  }

  lemma HeaderStored(chip: Chip, a: Area, page: nat, data: Bytes)
    requires 1 <= a.cols && a.col + a.cols <= MAX_COLS && page < a.pages && a.page + a.pages <= MAX_SEGMENTS
    requires |data| == a.cols
    ensures Stored(chip, Receive(Header(chip, a, page) + data)) == Some(Store(a.page + page, a.col, data))
  {
    ReceiveSingles(Addressing(chip, a, page), data);
    StoredAddressing(chip, a, page, data);
  }

  /**
   A page's header followed by its data is taken by the controller as exactly that: the data goes
   to that page of the draw area, from its first column to its last.
   */
  lemma HeaderAddressesPage(c: Config, page: nat, data: Bytes)
    requires Valid(c) && DrawArea(c).cols > 0 && page < DrawArea(c).pages && |data| == DrawArea(c).cols
    ensures var a := DrawArea(c);
      && a.col + a.cols <= MAX_COLS && a.page + a.pages <= MAX_SEGMENTS
      && Stored(c.chip, Receive(Header(c.chip, a, page) + data)) == Some(Store(a.page + page, a.col, data))
  {
    DrawAreaFits(c);
    HeaderStored(c.chip, DrawArea(c), page, data);
  }

  lemma {:induction false} SinglesLength(commands: Bytes)
    ensures |Singles(commands)| == 2 * |commands|
  {
    if commands != [] { SinglesLength(commands[1..]); }
  }

  /** A header and its page of data fit the buffers' capacity. */
  lemma SegmentFits(c: Config, page: nat)
    requires Valid(c) && DrawArea(c).cols > 0 && page < DrawArea(c).pages
    ensures var a := DrawArea(c);
      && a.col + a.cols <= MAX_COLS && a.page + a.pages <= MAX_SEGMENTS
      && |Header(c.chip, a, page)| <= MAX_HEADER_LEN && |Header(c.chip, a, page)| + a.cols <= SEGMENT_BUF_LEN
  {
    DrawAreaFits(c);
    SinglesLength(Addressing(c.chip, DrawArea(c), page));
  }
}
