/**
 The "#nodem" configuration (src/nodem.rs) and its device entries (src/driver.rs): the shape of
 the framebuffer, and which part of it each output driver shows.
 */
module Nodem {
  import opened Prelude
  import opened Text

  const MAX_DEVICES := 4
  const MAX_DIMENSION := 1024
  /** The longest value kept in flash. */
  const NVS_VALUE_MAX_LEN := 16 + MAX_DEVICES * 28

  datatype DriverKind = Iled | Oled

  function DriverName(kind: DriverKind): string {
    match kind case Iled => "iled" case Oled => "oled"
  }

  function ParseDriver(s: string): Option<DriverKind> {
    if s == "iled" then Some(Iled) else if s == "oled" then Some(Oled) else None
  }

  /** Where a driver's output sits in the framebuffer: a shift and the driver pixels per pixel. */
  datatype DeviceMapping = DeviceMapping(driver: DriverKind, x: int, y: int, scaleX: nat, scaleY: nat)

  datatype NodemConfig = NodemConfig(width: nat, height: nat, bitsPerPixel: nat, devices: seq<Option<DeviceMapping>>)

  function DefaultConfig(): NodemConfig {
    NodemConfig(128, 64, 1, [Some(DeviceMapping(Oled, 0, 0, 1, 1)), None, None, None])
  }

  // ---------------------------------------------------------------- device entries

  function ParseDeviceFields(f: seq<string>): Option<DeviceMapping> {
    if |f| < 5 then None
    else
      var driver := ParseDriver(f[0]);
      var x, y := ParseInt(f[1], -32768, 32767), ParseInt(f[2], -32768, 32767);
      var scaleX, scaleY := ParseUInt(f[3], 255), ParseUInt(f[4], 255);
      if driver.None? || x.None? || y.None? || scaleX.None? || scaleY.None?
         || |f| > 5 || scaleX.value == 0 || scaleY.value == 0
      then None
      else Some(DeviceMapping(driver.value, x.value, y.value, scaleX.value, scaleY.value))
  }

  /** `DeviceMapping::parse`. */
  function ParseDevice(s: string): Option<DeviceMapping> {
    ParseDeviceFields(TrimAll(Split(s, ':')))
  }

  function DeviceParts(d: DeviceMapping): seq<string> {
    [DriverName(d.driver), DecInt(d.x), DecInt(d.y), Dec(d.scaleX), Dec(d.scaleY)]
  }

  function PrintDevice(d: DeviceMapping): string {
    Join(DeviceParts(d), ':')
  }

  /** What a device entry can hold: `i16` shifts and non-zero `u8` scales. */
  predicate ValidDevice(d: DeviceMapping) {
    -32768 <= d.x <= 32767 && -32768 <= d.y <= 32767 && 1 <= d.scaleX <= 255 && 1 <= d.scaleY <= 255
  }

  lemma DevicePartsPlain(d: DeviceMapping)
    requires ValidDevice(d)
    ensures forall p | p in DeviceParts(d) :: Plain(p)
  {
    DecIntPlain(d.x);
    DecIntPlain(d.y);
    DecPlain(d.scaleX);
    DecPlain(d.scaleY);
  }

  /** A printed entry holds no comma and no white space, and is not empty. */
  lemma PrintedDeviceText(d: DeviceMapping)
    requires ValidDevice(d)
    ensures ',' !in PrintDevice(d) && Spaceless(PrintDevice(d)) && PrintDevice(d) != ""
  {
    DevicePartsPlain(d);
    forall c | c in PrintDevice(d) ensures c != ',' && !IsSpace(c) {
      JoinChars(DeviceParts(d), ':', c);
    }
  }

  lemma DeviceFieldsRoundTrip(d: DeviceMapping)
    requires ValidDevice(d)
    ensures ParseDeviceFields(DeviceParts(d)) == Some(d)
  {
    ParseDecInt(d.x, -32768, 32767);
    ParseDecInt(d.y, -32768, 32767);
    ParseDec(d.scaleX, 255);
    ParseDec(d.scaleY, 255);
  }

  /** Parsing a printed device entry gives it back. */
  lemma DeviceRoundTrip(d: DeviceMapping)
    requires ValidDevice(d)
    ensures ParseDevice(PrintDevice(d)) == Some(d)
  {
    DevicePartsPlain(d);
    SplitJoin(DeviceParts(d), ':');
    TrimAllSpaceless(DeviceParts(d));
    DeviceFieldsRoundTrip(d);
  }

  // ---------------------------------------------------------------- the device table

  /** The entries of the fixed table, in order. */
  function Flatten(devices: seq<Option<DeviceMapping>>): seq<DeviceMapping> {
    if devices == [] then []
    else (if devices[0].Some? then [devices[0].value] else []) + Flatten(devices[1..])
  }

  /** A table holding `ds` from its start. */
  function Table(ds: seq<DeviceMapping>): (devices: seq<Option<DeviceMapping>>)
    requires |ds| <= MAX_DEVICES
    ensures |devices| == MAX_DEVICES
  {
    seq(MAX_DEVICES, i requires 0 <= i => if i < |ds| then Some(ds[i]) else None)
  }

  lemma TableExtend(ds: seq<DeviceMapping>, d: DeviceMapping)
    requires |ds| < MAX_DEVICES
    ensures Table(ds)[|ds| := Some(d)] == Table(ds + [d])
  {
  }

  /** Each driver is mapped at most once. */
  predicate DistinctDrivers(ds: seq<DeviceMapping>) {
    forall i, j | 0 <= i < j < |ds| :: ds[i].driver != ds[j].driver
  }

  lemma {:induction false} FlattenNone(devices: seq<Option<DeviceMapping>>)
    requires forall i | 0 <= i < |devices| :: devices[i].None?
    ensures Flatten(devices) == []
  {
    if devices != [] { FlattenNone(devices[1..]); }
  }

  lemma {:induction false} FlattenPrefix(devices: seq<Option<DeviceMapping>>, ds: seq<DeviceMapping>)
    requires |ds| <= |devices|
    requires forall i | 0 <= i < |devices| :: devices[i] == if i < |ds| then Some(ds[i]) else None
    ensures Flatten(devices) == ds
  {
    if ds == [] {
      FlattenNone(devices);
    } else {
      FlattenPrefix(devices[1..], ds[1..]);
      assert [ds[0]] + ds[1..] == ds;
    }
  }

  /** The table is full, or has an entry for this driver already. */
  predicate Refused(ds: seq<DeviceMapping>, driver: DriverKind) {
    |ds| >= MAX_DEVICES || exists e :: e in ds && e.driver == driver
  }

  /** Adds the non-empty entries to those already accepted; `None` on the first that is refused. */
  function AddDevices(entries: seq<string>, ds: seq<DeviceMapping>): (r: Option<seq<DeviceMapping>>)
    requires |ds| <= MAX_DEVICES && DistinctDrivers(ds)
    ensures r.Some? ==> |r.value| <= MAX_DEVICES && DistinctDrivers(r.value) && ds <= r.value
    ensures r.Some? && (forall d | d in ds :: ValidDevice(d)) ==> forall d | d in r.value :: ValidDevice(d)
  {
    if entries == [] then Some(ds)
    else if entries[0] == "" then AddDevices(entries[1..], ds)
    else match ParseDevice(entries[0])
      case None => None
      case Some(d) =>
        if Refused(ds, d.driver) then None
        else AddDevices(entries[1..], ds + [d])
  }

  // ---------------------------------------------------------------- the configuration

  function ParseGeometry(s: string): Option<(nat, nat)> {
    var f := TrimAll(Split(s, ':'));
    if |f| != 3 then None
    else
      var w, h, bpp := ParseUInt(f[0], 65535), ParseUInt(f[1], 65535), ParseUInt(f[2], 255);
      if w.None? || h.None? || bpp.None? || !(1 <= w.value <= MAX_DIMENSION)
         || !(1 <= h.value <= MAX_DIMENSION) || bpp.value != 1
      then None else Some((w.value, h.value))
  }

  /** What `NodemConfig::parse` accepts, and what it makes of it. */
  function Parsed(s: string): Option<NodemConfig> {
    var entries := TrimAll(Split(s, ','));
    match ParseGeometry(entries[0])
    case None => None
    case Some((w, h)) =>
      match AddDevices(entries[1..], [])
      case None => None
      case Some(ds) => Some(NodemConfig(w, h, 1, Table(ds)))
  }

  /** Puts one entry's device into the table, unless it is malformed or refused. */
  method AddDevice(entry: string, devices: seq<Option<DeviceMapping>>, count: nat, ghost ds: seq<DeviceMapping>)
      returns (table: Option<seq<Option<DeviceMapping>>>)
    requires count == |ds| <= MAX_DEVICES && DistinctDrivers(ds) && devices == Table(ds)
    ensures var d := ParseDevice(entry);
      table == if d.None? || Refused(ds, d.value.driver) then None else Some(Table(ds + [d.value]))
  {
    var device := ParseDevice(entry);
    if device.None? { return None; }
    FlattenPrefix(devices, ds);
    if count == MAX_DEVICES || exists d :: d in Flatten(devices) && d.driver == device.value.driver {
      assert Refused(ds, device.value.driver);
      return None;
    }
    TableExtend(ds, device.value);
    table := Some(devices[count := device]);
  }

  /** The device loop of `NodemConfig::parse`: a fixed table filled by a counter. */
  method FillDevices(entries: seq<string>) returns (table: Option<seq<Option<DeviceMapping>>>)
    ensures table == match AddDevices(entries, []) case None => None case Some(ds) => Some(Table(ds))
  {
    var devices: seq<Option<DeviceMapping>> := [None, None, None, None];
    var count := 0;
    ghost var ds: seq<DeviceMapping> := [];
    var i := 0;
    while i < |entries|
      invariant 0 <= i <= |entries|
      invariant count == |ds| <= MAX_DEVICES && DistinctDrivers(ds) && devices == Table(ds)
      invariant AddDevices(entries, []) == AddDevices(entries[i..], ds)
    {
      assert entries[i..][0] == entries[i] && entries[i..][1..] == entries[i + 1..];
      if entries[i] != "" {
        var added := AddDevice(entries[i], devices, count, ds);
        if added.None? { return None; }
        devices := added.value;
        ds := ds + [ParseDevice(entries[i]).value];
        count := count + 1;
      }
      i := i + 1;
    }
    assert entries[i..] == [];
    table := Some(devices);
  }

  /** `NodemConfig::parse`. */
  method Parse(s: string) returns (config: Option<NodemConfig>)
    ensures config == Parsed(s)
  {
    var entries := TrimAll(Split(s, ','));
    var geometry := ParseGeometry(entries[0]);
    if geometry.None? { return None; }
    var devices := FillDevices(entries[1..]);
    if devices.None? { return None; }
    config := Some(NodemConfig(geometry.value.0, geometry.value.1, 1, devices.value));
  }

  function PrintDevices(ds: seq<DeviceMapping>): seq<string> {
    seq(|ds|, i requires 0 <= i < |ds| => PrintDevice(ds[i]))
  }

  function PrintGeometry(c: NodemConfig): string {
    Join([Dec(c.width), Dec(c.height), Dec(c.bitsPerPixel)], ':')
  }

  /** `NodemConfig::to_nvs_string`. */
  function Print(c: NodemConfig): string {
    Join([PrintGeometry(c)] + PrintDevices(Flatten(c.devices)), ',')
  }

  /** The configurations `parse` can return. */
  predicate Valid(c: NodemConfig) {
    && 1 <= c.width <= MAX_DIMENSION && 1 <= c.height <= MAX_DIMENSION && c.bitsPerPixel == 1
    && var ds := Flatten(c.devices);
       && |ds| <= MAX_DEVICES && c.devices == Table(ds) && DistinctDrivers(ds)
       && forall d | d in ds :: ValidDevice(d)
  }

  lemma ParsedIsValid(s: string)
    ensures Parsed(s).Some? ==> Valid(Parsed(s).value)
  {
    var entries := TrimAll(Split(s, ','));
    if Parsed(s).Some? {
      var ds := AddDevices(entries[1..], []).value;
      FlattenPrefix(Table(ds), ds);
    }
  }

  lemma DefaultIsValid()
    ensures Valid(DefaultConfig())
  {
    var ds := [DeviceMapping(Oled, 0, 0, 1, 1)];
    FlattenPrefix(DefaultConfig().devices, ds);
    assert DefaultConfig().devices == Table(ds);
  }

  lemma NonEmptyCons(entry: string, entries: seq<string>)
    requires entry != ""
    ensures NonEmpty([entry] + entries) == [entry] + NonEmpty(entries)
  {
    assert ([entry] + entries)[1..] == entries;
  }

  lemma PrintCons(ds: seq<DeviceMapping>)
    requires ds != []
    ensures [ds[0]] + ds[1..] == ds && PrintDevices(ds) == [PrintDevice(ds[0])] + PrintDevices(ds[1..])
  {
  }

  lemma {:induction false} PrintedAreSpelled(ds: seq<DeviceMapping>)
    requires forall d | d in ds :: ValidDevice(d)
    ensures SpellsDevices(NonEmpty(PrintDevices(ds)), ds)
  {
    if ds != [] {
      PrintedDeviceText(ds[0]);
      DeviceRoundTrip(ds[0]);
      PrintedAreSpelled(ds[1..]);
      PrintCons(ds);
      NonEmptyCons(PrintDevice(ds[0]), PrintDevices(ds[1..]));
      SpellsCons(PrintDevice(ds[0]), NonEmpty(PrintDevices(ds[1..])), ds[0], ds[1..]);
    }
  }

  lemma GeometryText(c: NodemConfig)
    requires Valid(c)
    ensures ParseGeometry(PrintGeometry(c)) == Some((c.width, c.height))
    ensures ',' !in PrintGeometry(c) && Spaceless(PrintGeometry(c))
  {
    var parts := [Dec(c.width), Dec(c.height), Dec(c.bitsPerPixel)];
    DecPlain(c.width);
    DecPlain(c.height);
    DecPlain(c.bitsPerPixel);
    ParseDec(c.width, 65535);
    ParseDec(c.height, 65535);
    ParseDec(c.bitsPerPixel, 255);
    SplitJoin(parts, ':');
    TrimAllSpaceless(parts);
    forall ch | ch in PrintGeometry(c) ensures ch != ',' && !IsSpace(ch) {
      JoinChars(parts, ':', ch);
    }
  }

  lemma EntriesText(c: NodemConfig)
    requires Valid(c)
    ensures forall p | p in [PrintGeometry(c)] + PrintDevices(Flatten(c.devices)) :: ',' !in p && Spaceless(p)
  {
    var ds := Flatten(c.devices);
    GeometryText(c);
    forall p | p in [PrintGeometry(c)] + PrintDevices(ds) ensures ',' !in p && Spaceless(p) {
      if p != PrintGeometry(c) {
        var i :| 0 <= i < |ds| && p == PrintDevice(ds[i]);
        PrintedDeviceText(ds[i]);
      }
    }
  }

  /** Parsing the printed form of any configuration `parse` can return gives it back. */
  lemma RoundTrip(c: NodemConfig)
    requires Valid(c)
    ensures Parsed(Print(c)) == Some(c)
  {
    var ds := Flatten(c.devices);
    var parts := [PrintGeometry(c)] + PrintDevices(ds);
    GeometryText(c);
    EntriesText(c);
    SplitJoin(parts, ',');
    TrimAllSpaceless(parts);
    PrintedAreSpelled(ds);
    DevicesMeaning(PrintDevices(ds), ds);
    assert parts[1..] == PrintDevices(ds);
  }

  /** Printing what was parsed is a canonical form: doing it again changes nothing. */
  lemma PrintIsCanonical(s: string)
    requires Parsed(s).Some?
    ensures var text := Print(Parsed(s).value);
      Parsed(text) == Parsed(s) && Print(Parsed(text).value) == text
  {
    ParsedIsValid(s);
    RoundTrip(Parsed(s).value);
  }

  lemma DefaultNumbers()
    ensures Dec(128) == "128" && Dec(64) == "64" && Dec(1) == "1" && Dec(0) == "0"
  {
    assert Dec(12) == "12" && Dec(6) == "6";
  }

  lemma DefaultDevice(d: DeviceMapping, text: string)
    requires d == DeviceMapping(Oled, 0, 0, 1, 1) && text == "oled:0:0:1:1"
    ensures PrintDevice(d) == text
  {
    DefaultNumbers();
    var p := DeviceParts(d);
    assert p == ["oled", "0", "0", "1", "1"];
    assert Join(p[3..], ':') == "1:1";
    assert Join(p[2..], ':') == "0:1:1";
    assert Join(p[1..], ':') == "0:0:1:1";
  }

  lemma DefaultGeometry(text: string)
    requires text == "128:64:1"
    ensures PrintGeometry(DefaultConfig()) == text
  {
    DefaultNumbers();
    var p := ["128", "64", "1"];
    assert Join(p[1..], ':') == "64:1";
    assert Join(p, ':') == text;
  }

  /** The default is written as it is documented. */
  lemma DefaultText(geometry: string, device: string)
    requires geometry == "128:64:1" && device == "oled:0:0:1:1"
    ensures Print(DefaultConfig()) == geometry + [','] + device
  {
    var d := DeviceMapping(Oled, 0, 0, 1, 1);
    FlattenPrefix(DefaultConfig().devices, [d]);
    DefaultGeometry(geometry);
    DefaultDevice(d, device);
    assert [PrintGeometry(DefaultConfig())] + PrintDevices([d]) == [geometry, device];
    JoinTwo(geometry, device, ',');
  }

  lemma JoinTwo(a: string, b: string, sep: char)
    ensures Join([a, b], sep) == a + [sep] + b
  {
    assert [a, b][1..] == [b];
  }

  // ---------------------------------------------------------------- how long it gets

  lemma DeviceLength(d: DeviceMapping)
    requires ValidDevice(d)
    ensures |PrintDevice(d)| <= 26
  {
    var p := DeviceParts(d);
    assert Pow10(3) == 1000 && Pow10(5) == 100000 by {
      assert Pow10(1) == 10 && Pow10(2) == 100 && Pow10(4) == 10000;
    }
    DecLength(if d.x < 0 then -d.x else d.x, 5);
    DecLength(if d.y < 0 then -d.y else d.y, 5);
    DecLength(d.scaleX, 3);
    DecLength(d.scaleY, 3);
    JoinLength(p, ':');
    JoinLength(p[1..], ':');
    JoinLength(p[2..], ':');
    JoinLength(p[3..], ':');
    assert p[1..][1..] == p[2..] && p[2..][1..] == p[3..] && p[3..][1..] == p[4..];
  }

  /** The text of a configuration `parse` can return always fits what is kept in flash. */
  lemma PrintFits(c: NodemConfig)
    requires Valid(c)
    ensures 1 <= |Print(c)| <= NVS_VALUE_MAX_LEN
  {
    var ds := Flatten(c.devices);
    var parts := [PrintGeometry(c)] + PrintDevices(ds);
    assert Pow10(4) == 10000 by { assert Pow10(1) == 10 && Pow10(2) == 100 && Pow10(3) == 1000; }
    DecLength(c.width, 4);
    DecLength(c.height, 4);
    var g := [Dec(c.width), Dec(c.height), Dec(c.bitsPerPixel)];
    assert |Dec(c.bitsPerPixel)| == 1;
    JoinLength(g, ':');
    JoinLength(g[1..], ':');
    assert g[1..][1..] == [g[2]];
    forall i | 0 < i < |parts| ensures |parts[i]| <= 26 {
      DeviceLength(ds[i - 1]);
    }
    JoinBound(parts, ',', 26);
    JoinLength(parts, ',');
  }

  // ---------------------------------------------------------------- queries

  /** `mapping`: the entry of a driver, if it has one. */
  function Mapping(c: NodemConfig, driver: DriverKind): (m: Option<DeviceMapping>)
  {
    FindDriver(Flatten(c.devices), driver)
  }

  function FindDriver(ds: seq<DeviceMapping>, driver: DriverKind): (m: Option<DeviceMapping>)
    ensures m.Some? ==> m.value in ds && m.value.driver == driver
    ensures m.None? ==> forall d | d in ds :: d.driver != driver
  {
    if ds == [] then None
    else if ds[0].driver == driver then Some(ds[0])
    else FindDriver(ds[1..], driver)
  }

  predicate SameGeometry(a: NodemConfig, b: NodemConfig) {
    a.width == b.width && a.height == b.height && a.bitsPerPixel == b.bitsPerPixel
  }

  lemma {:induction false} FindsEntry(ds: seq<DeviceMapping>, driver: DriverKind, m: DeviceMapping)
    requires DistinctDrivers(ds)
    ensures FindDriver(ds, driver) == Some(m) <==> m in ds && m.driver == driver
  {
    if ds != [] {
      assert DistinctDrivers(ds[1..]);
      FindsEntry(ds[1..], driver, m);
      if ds[0].driver == driver { assert forall d | d in ds[1..] :: d.driver != driver; }
    }
  }

  /** A driver's mapping is its one entry of the table. */
  lemma MappingIsEntry(c: NodemConfig, driver: DriverKind, m: DeviceMapping)
    requires Valid(c)
    ensures Mapping(c, driver) == Some(m) <==> Some(m) in c.devices && m.driver == driver
  {
    FindsEntry(Flatten(c.devices), driver, m);
    FlattenHolds(c.devices, m);
  }

  lemma {:induction false} FlattenHolds(devices: seq<Option<DeviceMapping>>, m: DeviceMapping)
    ensures m in Flatten(devices) <==> Some(m) in devices
  {
    if devices != [] { FlattenHolds(devices[1..], m); }
  }

  /** `buffer_len`: bytes of a framebuffer packed without padding. */
  function BufferLen(c: NodemConfig): nat {
    (c.width * c.height * c.bitsPerPixel + 7) / 8
  }

  /** Every bit of a framebuffer has its place in the buffer, and no byte of it is unused. */
  lemma BufferIsTight(c: NodemConfig)
    requires Valid(c)
    ensures 8 * (BufferLen(c) - 1) < c.width * c.height <= 8 * BufferLen(c)
  {
    assert c.width * c.height * c.bitsPerPixel == c.width * c.height;
  }

  // ---------------------------------------------------------------- what a text means

  /** The five fields of a device entry, which spell its numbers. */
  predicate SpellsDevice(f: seq<string>, d: DeviceMapping) {
    && |f| == 5 && f[0] == DriverName(d.driver)
    && ParseInt(f[1], -32768, 32767) == Some(d.x) && ParseInt(f[2], -32768, 32767) == Some(d.y)
    && ParseUInt(f[3], 255) == Some(d.scaleX) && ParseUInt(f[4], 255) == Some(d.scaleY)
  }

  /** Which entries mean which device: exactly five fields, two shifts and two scales that are not zero. */
  lemma DeviceMeaning(s: string, d: DeviceMapping)
    ensures ParseDevice(s) == Some(d) <==>
      1 <= d.scaleX && 1 <= d.scaleY && SpellsDevice(TrimAll(Split(s, ':')), d)
  {
    DriverOfName(TrimAll(Split(s, ':'))[0], d.driver);
  }

  lemma DriverOfName(s: string, kind: DriverKind)
    ensures ParseDriver(s) == Some(kind) <==> s == DriverName(kind)
  {
    assert "iled"[0] == 'i' && "oled"[0] == 'o';
  }

  /** The entries that say something. */
  function NonEmpty(entries: seq<string>): seq<string> {
    if entries == [] then []
    else (if entries[0] == "" then [] else [entries[0]]) + NonEmpty(entries[1..])
  }

  /** One entry each, in order. */
  predicate SpellsDevices(entries: seq<string>, ds: seq<DeviceMapping>) {
    if entries == [] || ds == [] then entries == [] && ds == []
    else ParseDevice(entries[0]) == Some(ds[0]) && SpellsDevices(entries[1..], ds[1..])
  }

  /** An entry that says something, when the entries from it on are accepted. */
  lemma FirstAccepted(entries: seq<string>, have: seq<DeviceMapping>) returns (d: DeviceMapping)
    requires |have| <= MAX_DEVICES && DistinctDrivers(have) && entries != [] && entries[0] != ""
    requires AddDevices(entries, have).Some?
    ensures ParseDevice(entries[0]) == Some(d) && |have + [d]| <= MAX_DEVICES && DistinctDrivers(have + [d])
    ensures AddDevices(entries, have) == AddDevices(entries[1..], have + [d])
  {
    d := ParseDevice(entries[0]).value;
  }

  lemma Regroup(a: seq<DeviceMapping>, d: DeviceMapping, b: seq<DeviceMapping>)
    ensures (a + [d]) + b == a + ([d] + b)
  {
  }

  lemma SpellsCons(entry: string, entries: seq<string>, d: DeviceMapping, ds: seq<DeviceMapping>)
    requires ParseDevice(entry) == Some(d) && SpellsDevices(entries, ds)
    ensures SpellsDevices([entry] + entries, [d] + ds)
  {
    assert ([entry] + entries)[1..] == entries && ([d] + ds)[1..] == ds;
  }

  /** Entries that are accepted spell what they add. */
  lemma {:induction false} AcceptedAreSpelled(entries: seq<string>, have: seq<DeviceMapping>)
      returns (more: seq<DeviceMapping>)
    requires |have| <= MAX_DEVICES && DistinctDrivers(have) && AddDevices(entries, have).Some?
    ensures AddDevices(entries, have) == Some(have + more) && SpellsDevices(NonEmpty(entries), more)
    decreases |entries|
  {
    if entries == [] {
      more := [];
      assert have + [] == have;
    } else if entries[0] == "" {
      assert NonEmpty(entries) == NonEmpty(entries[1..]);
      more := AcceptedAreSpelled(entries[1..], have);
    } else {
      var d := FirstAccepted(entries, have);
      var later := AcceptedAreSpelled(entries[1..], have + [d]);
      Regroup(have, d, later);
      assert NonEmpty(entries) == [entries[0]] + NonEmpty(entries[1..]);
      SpellsCons(entries[0], NonEmpty(entries[1..]), d, later);
      more := [d] + later;
    }
  }

  lemma AcceptFirst(entries: seq<string>, ds: seq<DeviceMapping>, k: nat)
    requires |ds| <= MAX_DEVICES && DistinctDrivers(ds) && k < |ds|
    requires entries != [] && entries[0] != "" && ParseDevice(entries[0]) == Some(ds[k])
    ensures DistinctDrivers(ds[..k]) && DistinctDrivers(ds[..k + 1])
    ensures AddDevices(entries, ds[..k]) == AddDevices(entries[1..], ds[..k + 1])
  {
    TakeOneMore(ds, k);
    assert forall e | e in ds[..k] :: e.driver != ds[k].driver;
    assert !Refused(ds[..k], ds[k].driver);
  }

  lemma TakeOneMore(ds: seq<DeviceMapping>, k: nat)
    requires k < |ds|
    ensures ds[..k] + [ds[k]] == ds[..k + 1]
  {
  }

  /** And entries that spell a table's devices from the `k`-th on add them. */
  lemma {:induction false} SpelledAreAccepted(entries: seq<string>, ds: seq<DeviceMapping>, k: nat)
    requires |ds| <= MAX_DEVICES && DistinctDrivers(ds) && k <= |ds| && SpellsDevices(NonEmpty(entries), ds[k..])
    ensures DistinctDrivers(ds[..k]) && AddDevices(entries, ds[..k]) == Some(ds)
    decreases |entries|
  {
    if entries == [] {
      assert ds[..k] == ds;
    } else if entries[0] == "" {
      assert NonEmpty(entries) == NonEmpty(entries[1..]);
      SpelledAreAccepted(entries[1..], ds, k);
    } else {
      assert NonEmpty(entries) == [entries[0]] + NonEmpty(entries[1..]);
      assert NonEmpty(entries)[1..] == NonEmpty(entries[1..]) && ds[k..][1..] == ds[k + 1..];
      AcceptFirst(entries, ds, k);
      SpelledAreAccepted(entries[1..], ds, k + 1);
    }
  }

  /** Which entries are accepted as which devices. */
  lemma DevicesMeaning(entries: seq<string>, ds: seq<DeviceMapping>)
    ensures AddDevices(entries, []) == Some(ds) <==>
      |ds| <= MAX_DEVICES && DistinctDrivers(ds) && SpellsDevices(NonEmpty(entries), ds)
  {
    if AddDevices(entries, []).Some? {
      var more := AcceptedAreSpelled(entries, []);
      assert [] + more == more;
    }
    if |ds| <= MAX_DEVICES && DistinctDrivers(ds) && SpellsDevices(NonEmpty(entries), ds) {
      assert ds[0..] == ds && ds[..0] == [];
      SpelledAreAccepted(entries, ds, 0);
    }
  }

  /** Which lines mean which configuration: its geometry, and its devices in order, empty entries left out. */
  lemma ParsedMeaning(s: string, c: NodemConfig)
    ensures Parsed(s) == Some(c) <==>
      var entries := TrimAll(Split(s, ','));
      && Valid(c) && SpellsGeometry(TrimAll(Split(entries[0], ':')), c)
      && SpellsDevices(NonEmpty(entries[1..]), Flatten(c.devices))
  {
    var entries := TrimAll(Split(s, ','));
    GeometryMeaning(entries[0], c.width, c.height);
    DevicesMeaning(entries[1..], Flatten(c.devices));
    ParsedIsValid(s);
    if AddDevices(entries[1..], []).Some? {
      var ds := AddDevices(entries[1..], []).value;
      FlattenPrefix(Table(ds), ds);
    }
  }

  lemma GeometryMeaning(s: string, width: nat, height: nat)
    ensures ParseGeometry(s) == Some((width, height)) <==>
      var f := TrimAll(Split(s, ':'));
      && |f| == 3 && ParseUInt(f[0], 65535) == Some(width) && ParseUInt(f[1], 65535) == Some(height)
      && ParseUInt(f[2], 255) == Some(1) && 1 <= width <= MAX_DIMENSION && 1 <= height <= MAX_DIMENSION
  {
  }

  predicate SpellsGeometry(f: seq<string>, c: NodemConfig) {
    && |f| == 3 && ParseUInt(f[0], 65535) == Some(c.width) && ParseUInt(f[1], 65535) == Some(c.height)
    && ParseUInt(f[2], 255) == Some(c.bitsPerPixel)
  }
}
