/**
 The settings of the OLED's controller chips: the sequences by which src/oled.rs sets a display up
 and switches it off, and what a controller that obeys them is left with.
 */
module OledController {
  import opened Prelude
  import C = OledConfig

  const CONTROL_COMMANDS: Byte := 0x00
  const DISPLAY_OFF: Byte := 0xAE
  const DISPLAY_ON: Byte := 0xAF

  /** How many operands a controller takes after a command byte. */
  function Operands(op: Byte): nat {
    if op in {0x20, 0x81, 0x8D, 0xA8, 0xAD, 0xD3, 0xD5, 0xD9, 0xDA, 0xDB} then 1 else 0
  }

  /** A command byte and what follows it. */
  datatype Raw = Command(op: Byte, operands: Bytes)

  /** A command with the operand it takes, if it takes one. */
  type Command = c: Raw | |c.operands| == Operands(c.op) witness Command(DISPLAY_OFF, [])

  /** The commands of `init_commands`, in order: the panel's geometry first. */
  function Geometry(c: C.Config): seq<Command>
    requires C.Valid(c)
  {
    C.SizesFit(c);
    [Command(DISPLAY_OFF, []), Command(0xD5, [0x80]), Command(0xA8, [c.height - 1]), Command(0xD3, [0]),
     Command(0x40, [])]
  }

  /** Power supply and wiring, and the SSD1306's addressing mode. */
  function Wiring(c: C.Config): seq<Command> {
    match c.chip
    case Ssd1306 =>
      if (c.width, c.height) == (72, 40) then
        [Command(0x8D, [0x14]), Command(0x20, [0x00]), Command(0xDA, [0x12]), Command(0xAD, [0x30])]
      else
        [Command(0x8D, [0x14]), Command(0x20, [0x00]),
         Command(0xDA, [if (c.width, c.height) == (128, 32) || (c.width, c.height) == (96, 16) then 0x02 else 0x12])]
    case Sh1106 => [Command(0xAD, [0x8B]), Command(0x32, []), Command(0xDA, [0x12])]
  }

  /** Columns and rows both mirrored, then the voltages. */
  function Drive(chip: C.Chip): seq<Command> {
    match chip
    case Ssd1306 =>
      [Command(0xA1, []), Command(0xC8, []), Command(0xD9, [0x21]), Command(0x81, [0x5F]), Command(0xDB, [0x40])]
    case Sh1106 =>
      [Command(0xA1, []), Command(0xC8, []), Command(0xD9, [0x22]), Command(0x81, [0x80]), Command(0xDB, [0x35])]
  }

  function Picture(chip: C.Chip): seq<Command> {
    match chip
    case Ssd1306 => [Command(0xA4, []), Command(0xA6, []), Command(0x2E, []), Command(DISPLAY_ON, [])]
    case Sh1106 => [Command(0xA4, []), Command(0xA6, []), Command(DISPLAY_ON, [])]
  }

  function InitSequence(c: C.Config): seq<Command>
    requires C.Valid(c)
  {
    Geometry(c) + (Wiring(c) + (Drive(c.chip) + Picture(c.chip)))
  }

  /** A sequence as it is sent: each command byte followed by its operand. */
  function Flat(commands: seq<Command>): Bytes {
    if commands == [] then []
    else [commands[0].op] + commands[0].operands + Flat(commands[1..])
  }

  // ---------------------------------------------------------------- the controller's side

  /** The setting a command byte is about: where the byte itself carries the value, the first of its range. */
  function Setting(op: Byte): Byte {
    if 0x40 <= op < 0x80 then 0x40
    else if op == DISPLAY_ON then DISPLAY_OFF
    else if op == 0x2F then 0x2E
    else if op == 0xA1 || op == 0xA5 || op == 0xA7 then op - 1
    else if 0xC0 <= op < 0xD0 then 0xC0
    else op
  }

  /** The command that last set each setting. */
  type Settings = map<Byte, Command>

  /** A controller takes a run of command bytes one command at a time; `None` if one lacks its operand. */
  function Obey(bytes: Bytes, s: Settings): Option<Settings>
    decreases |bytes|
  {
    if bytes == [] then Some(s)
    else
      var n := 1 + Operands(bytes[0]);
      if |bytes| < n then None
      else Obey(bytes[n..], s[Setting(bytes[0]) := Command(bytes[0], bytes[1..n])])
  }

  /** Each setting as the last command about it leaves it. */
  function SetAll(commands: seq<Command>, s: Settings): Settings {
    if commands == [] then s else SetAll(commands[1..], s[Setting(commands[0].op) := commands[0]])
  }

  /** Sending a sequence obeys its commands one by one. */
  lemma {:induction false} ObeyFlat(commands: seq<Command>, s: Settings)
    ensures Obey(Flat(commands), s) == Some(SetAll(commands, s))
  {
    if commands != [] {
      var first, rest := commands[0], Flat(commands[1..]);
      var bytes := [first.op] + first.operands + rest;
      var n := 1 + |first.operands|;
      assert bytes[0] == first.op && bytes[1..n] == first.operands && bytes[n..] == rest;
      ObeyFlat(commands[1..], s[Setting(first.op) := first]);
    }
  }

  lemma {:induction false} SetAllConcat(a: seq<Command>, b: seq<Command>, s: Settings)
    ensures SetAll(a + b, s) == SetAll(b, SetAll(a, s))
  {
    if a == [] {
      assert a + b == b;
    } else {
      assert (a + b)[1..] == a[1..] + b;
      SetAllConcat(a[1..], b, s[Setting(a[0].op) := a[0]]);
    }
  }

  /** No command is about this setting. */
  predicate Without(commands: seq<Command>, setting: Byte) {
    forall i | 0 <= i < |commands| :: Setting(commands[i].op) != setting
  }

  lemma {:induction false} OthersKeep(commands: seq<Command>, s: Settings, setting: Byte)
    requires setting in s && Without(commands, setting)
    ensures setting in SetAll(commands, s) && SetAll(commands, s)[setting] == s[setting]
  {
    if commands != [] { OthersKeep(commands[1..], s[Setting(commands[0].op) := commands[0]], setting); }
  }

  /** The last command about a setting decides it. */
  lemma {:induction false} LastDecides(commands: seq<Command>, s: Settings, k: nat)
    requires k < |commands| && Without(commands[k + 1..], Setting(commands[k].op))
    ensures var setting := Setting(commands[k].op);
      setting in SetAll(commands, s) && SetAll(commands, s)[setting] == commands[k]
  {
    var t := s[Setting(commands[0].op) := commands[0]];
    if k == 0 {
      OthersKeep(commands[1..], t, Setting(commands[0].op));
    } else {
      assert commands[1..][k..] == commands[k + 1..];
      LastDecides(commands[1..], t, k - 1);
    }
  }

  /** A setting was last set by this command. */
  predicate SetTo(s: Settings, op: Byte, operands: Bytes) {
    Setting(op) in s && s[Setting(op)] == Command(op, operands)
  }

  /**
   A display that shows its RAM as the driver fills it: on, its power supply running; all its rows driven
   and no others, from the RAM's first row on, and the SSD1306 in the addressing mode in which a page
   is written as a window; columns and rows mirrored, not inverted, not all lit, not scrolling.
   */
  predicate ShowsRam(c: C.Config, s: Settings)
    requires C.Valid(c)
  {
    Powered(c.chip, s) && Wired(c, s) && Addressed(c, s) && Plain(c.chip, s)
  }

  /**
   Row drivers are wired alternately, but for the wide panels of few rows; the 72x40 one needs the
   internal reference current.
   */
  predicate Wired(c: C.Config, s: Settings) {
    && SetTo(s, 0xDA, [if c.width >= 96 && c.height <= 32 then 0x02 else 0x12])
    && (c.width == 72 ==> SetTo(s, 0xAD, [0x30]))
  }

  predicate Powered(chip: C.Chip, s: Settings) {
    && SetTo(s, DISPLAY_ON, [])
    && (chip == C.Ssd1306 ==> SetTo(s, 0x8D, [0x14]))
    && (chip == C.Sh1106 ==> SetTo(s, 0xAD, [0x8B]))
  }

  predicate Addressed(c: C.Config, s: Settings)
    requires C.Valid(c)
  {
    C.SizesFit(c);
    && SetTo(s, 0xA8, [c.height - 1]) && SetTo(s, 0xD3, [0]) && SetTo(s, 0x40, [])
    && (c.chip == C.Ssd1306 ==> SetTo(s, 0x20, [0x00]))
  }

  predicate Plain(chip: C.Chip, s: Settings) {
    && SetTo(s, 0xA1, []) && SetTo(s, 0xC8, []) && SetTo(s, 0xA4, []) && SetTo(s, 0xA6, [])
    && (chip == C.Ssd1306 ==> SetTo(s, 0x2E, []))
  }

  /** The last command of `now` about a setting decides it, if none of `later` is about it. */
  lemma SetBy(now: seq<Command>, later: seq<Command>, s: Settings, k: nat, op: Byte, operands: Bytes)
    requires k < |now| && now[k] == Command(op, operands)
    requires Without(now[k + 1..], Setting(op)) && Without(later, Setting(op))
    ensures SetTo(SetAll(now + later, s), op, operands)
  {
    SetAllConcat(now, later, s);
    LastDecides(now, s, k);
    OthersKeep(later, SetAll(now, s), Setting(op));
  }

  lemma GeometrySets(c: C.Config, later: seq<Command>, s: Settings)
    requires C.Valid(c) && Without(later, 0xA8) && Without(later, 0xD3) && Without(later, 0x40)
    ensures 1 <= c.height <= 64
    ensures var t := SetAll(Geometry(c) + later, s);
      SetTo(t, 0xA8, [c.height - 1]) && SetTo(t, 0xD3, [0]) && SetTo(t, 0x40, [])
  {
    C.SizesFit(c);
    SetBy(Geometry(c), later, s, 2, 0xA8, [c.height - 1]);
    SetBy(Geometry(c), later, s, 3, 0xD3, [0]);
    SetBy(Geometry(c), later, s, 4, 0x40, []);
  }

  lemma WiringWires(c: C.Config, later: seq<Command>, s: Settings)
    requires C.Valid(c) && Without(later, 0xDA) && Without(later, 0xAD)
    ensures Wired(c, SetAll(Wiring(c) + later, s))
  {
    SetBy(Wiring(c), later, s, 2, 0xDA, [if c.width >= 96 && c.height <= 32 then 0x02 else 0x12]);
    if c.width == 72 { SetBy(Wiring(c), later, s, 3, 0xAD, [0x30]); }
  }

  lemma WiringSupplies(c: C.Config, later: seq<Command>, s: Settings)
    requires Without(later, 0x8D) && Without(later, 0x20) && Without(later, 0xAD)
    ensures var t := SetAll(Wiring(c) + later, s);
      if c.chip == C.Ssd1306 then SetTo(t, 0x8D, [0x14]) && SetTo(t, 0x20, [0x00]) else SetTo(t, 0xAD, [0x8B])
  {
    match c.chip
    case Ssd1306 =>
      SetBy(Wiring(c), later, s, 0, 0x8D, [0x14]);
      SetBy(Wiring(c), later, s, 1, 0x20, [0x00]);
    case Sh1106 => SetBy(Wiring(c), later, s, 0, 0xAD, [0x8B]);
  }

  lemma DriveSets(chip: C.Chip, later: seq<Command>, s: Settings)
    requires Without(later, 0xA0) && Without(later, 0xC0)
    ensures var t := SetAll(Drive(chip) + later, s); SetTo(t, 0xA1, []) && SetTo(t, 0xC8, [])
  {
    SetBy(Drive(chip), later, s, 0, 0xA1, []);
    SetBy(Drive(chip), later, s, 1, 0xC8, []);
  }

  lemma PictureSets(chip: C.Chip, s: Settings)
    ensures var t := SetAll(Picture(chip), s);
      && SetTo(t, 0xA4, []) && SetTo(t, 0xA6, []) && SetTo(t, DISPLAY_ON, [])
      && (chip == C.Ssd1306 ==> SetTo(t, 0x2E, []))
  {
    var all := Picture(chip);
    assert all + [] == all;
    SetBy(all, [], s, 0, 0xA4, []);
    SetBy(all, [], s, 1, 0xA6, []);
    SetBy(all, [], s, |all| - 1, DISPLAY_ON, []);
    if chip == C.Ssd1306 { SetBy(all, [], s, 2, 0x2E, []); }
  }

  lemma WithoutConcat(a: seq<Command>, b: seq<Command>, setting: Byte)
    requires Without(a, setting) && Without(b, setting)
    ensures Without(a + b, setting)
  {
  }

  /** What each part sets, no later part sets again. */
  lemma PartsAreApart(c: C.Config, setting: Byte)
    ensures setting in {0xA8, 0xD3, 0x40} ==> Without(Wiring(c) + (Drive(c.chip) + Picture(c.chip)), setting)
    ensures setting in {0x8D, 0x20, 0xAD, 0xDA} ==> Without(Drive(c.chip) + Picture(c.chip), setting)
    ensures setting in {0xA0, 0xC0} ==> Without(Picture(c.chip), setting)
  {
    if setting in {0xA8, 0xD3, 0x40, 0x8D, 0x20, 0xAD, 0xDA} {
      WithoutConcat(Drive(c.chip), Picture(c.chip), setting);
      if setting in {0xA8, 0xD3, 0x40} { WithoutConcat(Wiring(c), Drive(c.chip) + Picture(c.chip), setting); }
    }
  }

  lemma InitSets(c: C.Config, s: Settings)
    requires C.Valid(c)
    ensures ShowsRam(c, SetAll(InitSequence(c), s))
  {
    var last, drive := Picture(c.chip), Drive(c.chip);
    var powered := SetAll(Geometry(c), s);
    var wired := SetAll(Wiring(c), powered);
    forall setting: Byte { PartsAreApart(c, setting); }
    GeometrySets(c, Wiring(c) + (drive + last), s);
    SetAllConcat(Geometry(c), Wiring(c) + (drive + last), s);
    WiringWires(c, drive + last, powered);
    WiringSupplies(c, drive + last, powered);
    SetAllConcat(Wiring(c), drive + last, powered);
    DriveSets(c.chip, last, wired);
    SetAllConcat(drive, last, wired);
    PictureSets(c.chip, SetAll(drive, wired));
  }

  /** Whatever it was set to before: a controller that obeys the init sequence shows its RAM. */
  lemma InitShowsRam(c: C.Config, s: Settings)
    requires C.Valid(c)
    ensures var set' := Obey(Flat(InitSequence(c)), s);
      set'.Some? && ShowsRam(c, set'.value)
  {
    ObeyFlat(InitSequence(c), s);
    InitSets(c, s);
  }

  /** And one that obeys the off sequence is off, everything else as it was. */
  lemma OffSwitchesOff(s: Settings)
    ensures Obey([DISPLAY_OFF], s) == Some(s[DISPLAY_OFF := Command(DISPLAY_OFF, [])])
  {
    var off := [Command(DISPLAY_OFF, [])];
    assert off[1..] == [] && Flat(off) == [DISPLAY_OFF];
    ObeyFlat(off, s);
  }
}
