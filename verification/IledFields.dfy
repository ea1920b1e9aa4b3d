/**
 The field grammars of the "#iled" command (src/iled.rs): wire pattern, chain layout, colours, bit
 timing. Each parser is a function; the ones the source writes as loops are also methods proved to
 compute it.
 */
module IledFields {
  import opened Prelude
  import opened Text
  import opened Bits
  import opened IledChain
  import opened IledWire

  // ---------------------------------------------------------------- colour pattern

  function ChannelOf(c: char): Option<Channel> {
    match c
    case 'r' => Some(Red)
    case 'g' => Some(Green)
    case 'b' => Some(Blue)
    case 'w' => Some(WarmWhite)
    case 'c' => Some(ColdWhite)
    case _ => None
  }

  function Letter(ch: Channel): char {
    match ch
    case Red => 'r'
    case Green => 'g'
    case Blue => 'b'
    case WarmWhite => 'w'
    case ColdWhite => 'c'
  }

  /** How many digits `s` starts with. */
  function DigitRun(s: string): (n: nat)
    ensures n <= |s| && AllDigits(s[..n])
  {
    if s != "" && IsDigit(s[0]) then
      var n := 1 + DigitRun(s[1..]);
      assert s[..n] == [s[0]] + s[1..][..n - 1];
      n
    else 0
  }

  function ParseDepth(digits: string): (bits: Option<nat>)
    ensures bits.Some? ==> 1 <= bits.value <= MAX_CHANNEL_BITS
  {
    match ParseUInt(digits, 255)
    case None => None
    case Some(bits) => if bits == 0 || bits > MAX_CHANNEL_BITS then None else Some(bits)
  }

  predicate ValidEntries(p: Pattern) {
    |p| <= MAX_COLOR_CHANNELS && forall i | 0 <= i < |p| :: 1 <= p[i].1 <= MAX_CHANNEL_BITS
  }

  /** Reads `<letter><digits>` pairs onto those already read. */
  function ParseEntries(s: string, have: Pattern): (p: Option<Pattern>)
    requires ValidEntries(have)
    ensures p.Some? ==> ValidEntries(p.value)
    decreases |s|
  {
    if s == "" then Some(have)
    else
      var n := DigitRun(s[1..]);
      var channel, bits := ChannelOf(s[0]), ParseDepth(s[1..][..n]);
      if channel.None? || n == 0 || |have| >= MAX_COLOR_CHANNELS || bits.None? then None
      else ParseEntries(s[1..][n..], have + [(channel.value, bits.value)])
  }

  /** What `ColorPattern::parse` accepts, and what it makes of it. */
  function ParsedPattern(s: string): (p: Option<Pattern>)
    ensures p.Some? ==> ValidPattern(p.value)
  {
    match ParseEntries(s, [])
    case None => None
    case Some(p) => if p == [] then None else Some(p)
  }

  /** The inner loop of `ColorPattern::parse`: the end of the digits that start at `start`. */
  method SkipDigits(s: string, start: nat) returns (i: nat)
    requires start <= |s|
    ensures i == start + DigitRun(s[start..]) <= |s|
  {
    i := start;
    while i < |s| && IsDigit(s[i])
      invariant start <= i <= |s|
      invariant start + DigitRun(s[start..]) == i + DigitRun(s[i..])
    {
      assert s[i..][1..] == s[i + 1..];
      i := i + 1;
    }
  }

  /** `ColorPattern::parse`. */
  method ParsePattern(s: string) returns (p: Option<Pattern>)
    ensures p == ParsedPattern(s)
  {
    var channels: Pattern := [];
    var i := 0;
    while i < |s|
      invariant 0 <= i <= |s| && ValidEntries(channels)
      invariant ParseEntries(s, []) == ParseEntries(s[i..], channels)
    {
      var rest := s[i + 1..];
      assert s[i..][0] == s[i] && s[i..][1..] == rest;
      var channel := ChannelOf(s[i]);
      if channel.None? { return None; }
      var end := SkipDigits(s, i + 1);
      if end == i + 1 || |channels| >= MAX_COLOR_CHANNELS { return None; }
      assert s[i + 1..end] == rest[..DigitRun(rest)] && s[end..] == rest[DigitRun(rest)..];
      var bits := ParseUInt(s[i + 1..end], 255);
      if bits.None? || bits.value == 0 || bits.value > MAX_CHANNEL_BITS { return None; }
      channels := channels + [(channel.value, bits.value)];
      i := end;
    }
    assert s[i..] == "";
    if channels == [] { return None; }
    p := Some(channels);
  }

  /** `ColorPattern::to_csv`. */
  function PrintPattern(p: Pattern): string {
    if p == [] then "" else [Letter(p[0].0)] + (Dec(p[0].1) + PrintPattern(p[1..]))
  }

  lemma {:induction false} DigitRunOf(digits: string, rest: string)
    requires AllDigits(digits) && (rest == "" || !IsDigit(rest[0]))
    ensures DigitRun(digits + rest) == |digits|
  {
    if digits == "" {
      assert digits + rest == rest;
    } else {
      DigitRunOf(digits[1..], rest);
      assert (digits + rest)[1..] == digits[1..] + rest;
    }
  }

  /** One printed entry is read as one entry. */
  lemma ReadEntry(channel: Channel, digits: string, bits: nat, rest: string, have: Pattern)
    requires ValidEntries(have) && |have| < MAX_COLOR_CHANNELS && (rest == "" || !IsDigit(rest[0]))
    requires digits != "" && AllDigits(digits) && ParseDepth(digits) == Some(bits)
    ensures ParseEntries([Letter(channel)] + (digits + rest), have) == ParseEntries(rest, have + [(channel, bits)])
  {
    var tail := digits + rest;
    var s := [Letter(channel)] + tail;
    assert s[1..] == tail;
    DigitRunOf(digits, rest);
    assert tail[..|digits|] == digits && tail[|digits|..] == rest;
  }

  lemma DepthRoundTrip(bits: nat)
    requires 1 <= bits <= MAX_CHANNEL_BITS
    ensures ParseDepth(Dec(bits)) == Some(bits)
  {
    ParseDec(bits, 255);
  }

  lemma StartsWithLetter(p: Pattern)
    ensures PrintPattern(p) == "" || !IsDigit(PrintPattern(p)[0])
  {
  }

  lemma PrintCons(p: Pattern)
    requires p != []
    ensures PrintPattern(p) == [Letter(p[0].0)] + (Dec(p[0].1) + PrintPattern(p[1..]))
  {
  }

  /** Reading the `k`-th printed entry onto those before it. */
  lemma ReadFirst(p: Pattern, k: nat)
    requires ValidEntries(p) && k < |p|
    ensures ParseEntries(PrintPattern(p[k..]), p[..k]) == ParseEntries(PrintPattern(p[k + 1..]), p[..k + 1])
  {
    var bits := p[k].1;
    assert p[k..][1..] == p[k + 1..] && p[..k] + [p[k]] == p[..k + 1];
    DepthRoundTrip(bits);
    StartsWithLetter(p[k + 1..]);
    PrintCons(p[k..]);
    ReadEntry(p[k].0, Dec(bits), bits, PrintPattern(p[k + 1..]), p[..k]);
  }

  lemma {:induction false} EntriesRoundTrip(p: Pattern, k: nat)
    requires ValidEntries(p) && k <= |p|
    ensures ParseEntries(PrintPattern(p[k..]), p[..k]) == Some(p)
    decreases |p| - k
  {
    if k == |p| {
      assert p[..k] == p && p[k..] == [];
    } else {
      ReadFirst(p, k);
      EntriesRoundTrip(p, k + 1);
    }
  }

  /** Parsing a printed pattern gives it back. */
  lemma PatternRoundTrip(p: Pattern)
    requires ValidPattern(p)
    ensures ParsedPattern(PrintPattern(p)) == Some(p)
  {
    EntriesRoundTrip(p, 0);
    assert p[0..] == p && p[..0] == [];
  }

  lemma {:induction false} PatternPlain(p: Pattern)
    ensures Plain(PrintPattern(p)) && (p != [] ==> PrintPattern(p) != "")
  {
    if p != [] {
      PatternPlain(p[1..]);
      DecPlain(p[0].1);
    }
  }

  /** The text of entries whose depths are spelled by `depths`. */
  function SpellEntries(p: Pattern, depths: seq<string>): string
    requires |p| == |depths|
  {
    if p == [] then "" else [Letter(p[0].0)] + (depths[0] + SpellEntries(p[1..], depths[1..]))
  }

  predicate SpellDepths(p: Pattern, depths: seq<string>) {
    |p| == |depths| && forall i | 0 <= i < |p| :: Spells(depths[i], p[i].1)
  }

  lemma ChannelOfLetter(c: char, ch: Channel)
    ensures ChannelOf(c) == Some(ch) <==> c == Letter(ch)
  {
  }

  /** The first entry of a text that is accepted. */
  lemma FirstEntry(s: string, have: Pattern, p: Pattern) returns (ch: Channel, bits: nat, depth: string, rest: string)
    requires s != "" && ValidEntries(have) && ParseEntries(s, have) == Some(p)
    ensures s == [Letter(ch)] + (depth + rest) && Spells(depth, bits) && |rest| < |s|
    ensures ValidEntries(have + [(ch, bits)]) && ParseEntries(rest, have + [(ch, bits)]) == Some(p)
  {
    var tail := s[1..];
    var n := DigitRun(tail);
    ch, bits, depth, rest := ChannelOf(s[0]).value, ParseDepth(tail[..n]).value, tail[..n], tail[n..];
    assert depth + rest == tail && [s[0]] + tail == s;
    ChannelOfLetter(s[0], ch);
    ParseUIntMeaning(depth, 255, bits);
    assert IsDigit(depth[0]) by { assert depth[0] in depth; }
  }

  lemma Regroup(a: Pattern, b: Pattern, c: Pattern)
    ensures (a + b) + c == a + (b + c)
  {
  }

  lemma {:induction false} EntriesAreSpelled(s: string, have: Pattern, p: Pattern)
      returns (more: Pattern, depths: seq<string>)
    requires ValidEntries(have) && ParseEntries(s, have) == Some(p)
    ensures p == have + more && SpellDepths(more, depths) && s == SpellEntries(more, depths)
    decreases |s|
  {
    if s == "" {
      more, depths := [], [];
    } else {
      var ch, bits, depth, rest := FirstEntry(s, have, p);
      var later, texts := EntriesAreSpelled(rest, have + [(ch, bits)], p);
      SpellMore((ch, bits), later, depth, texts);
      Regroup(have, [(ch, bits)], later);
      more, depths := [(ch, bits)] + later, [depth] + texts;
    }
  }

  lemma SpellMore(entry: (Channel, nat), p: Pattern, depth: string, depths: seq<string>)
    requires Spells(depth, entry.1) && SpellDepths(p, depths)
    ensures SpellDepths([entry] + p, [depth] + depths)
    ensures SpellEntries([entry] + p, [depth] + depths) == [Letter(entry.0)] + (depth + SpellEntries(p, depths))
  {
    assert ([entry] + p)[1..] == p && ([depth] + depths)[1..] == depths;
  }

  lemma ReadSpelled(ch: Channel, bits: nat, depth: string, rest: string, have: Pattern)
    requires ValidEntries(have) && |have| < MAX_COLOR_CHANNELS && 1 <= bits <= MAX_CHANNEL_BITS
    requires Spells(depth, bits) && (rest == "" || !IsDigit(rest[0]))
    ensures ParseEntries([Letter(ch)] + (depth + rest), have) == ParseEntries(rest, have + [(ch, bits)])
  {
    ParseUIntMeaning(depth, 255, bits);
    ReadEntry(ch, depth, bits, rest, have);
  }

  lemma SpellStartsWithLetter(p: Pattern, depths: seq<string>)
    requires |p| == |depths|
    ensures SpellEntries(p, depths) == "" || !IsDigit(SpellEntries(p, depths)[0])
  {
  }

  lemma {:induction false} SpelledAreEntries(p: Pattern, depths: seq<string>, k: nat)
    requires ValidEntries(p) && SpellDepths(p, depths) && k <= |p|
    ensures ParseEntries(SpellEntries(p[k..], depths[k..]), p[..k]) == Some(p)
    decreases |p| - k
  {
    if k == |p| {
      assert p[..k] == p && p[k..] == [];
    } else {
      var rest := SpellEntries(p[k + 1..], depths[k + 1..]);
      assert p[k..][1..] == p[k + 1..] && depths[k..][1..] == depths[k + 1..] && p[..k] + [p[k]] == p[..k + 1];
      SpellStartsWithLetter(p[k + 1..], depths[k + 1..]);
      ReadSpelled(p[k].0, p[k].1, depths[k], rest, p[..k]);
      SpelledAreEntries(p, depths, k + 1);
    }
  }

  /**
   Which texts mean which pattern: exactly those that spell it, letter by letter, each depth in
   digits with any number of leading zeros.
   */
  lemma PatternMeaning(s: string, p: Pattern)
    ensures ParsedPattern(s) == Some(p) <==>
      ValidPattern(p) && exists depths: seq<string> :: SpellDepths(p, depths) && s == SpellEntries(p, depths)
  {
    if ParsedPattern(s) == Some(p) {
      var more, depths := EntriesAreSpelled(s, [], p);
      assert [] + more == more;
    }
    if ValidPattern(p) {
      forall depths: seq<string> | SpellDepths(p, depths) && s == SpellEntries(p, depths)
        ensures ParsedPattern(s) == Some(p)
      {
        assert p[0..] == p && depths[0..] == depths && p[..0] == [];
        SpelledAreEntries(p, depths, 0);
      }
    }
  }

  // ---------------------------------------------------------------- layout

  /** The parts of a layout given so far. */
  datatype Seen = Seen(hEdge: Option<HEdge>, vEdge: Option<VEdge>, axis: Option<Axis>, serpentine: bool)

  const NothingSeen := Seen(None, None, None, false)

  /** One arm of `parse_layout`'s match: each part at most once. */
  function See(seen: Seen, c: char): Option<Seen> {
    match c
    case 'r' => if seen.hEdge.None? then Some(seen.(hEdge := Some(Right))) else None
    case 'l' => if seen.hEdge.None? then Some(seen.(hEdge := Some(Left))) else None
    case 't' => if seen.vEdge.None? then Some(seen.(vEdge := Some(Top))) else None
    case 'b' => if seen.vEdge.None? then Some(seen.(vEdge := Some(Bottom))) else None
    case 'x' => if seen.axis.None? then Some(seen.(axis := Some(Row))) else None
    case 'y' => if seen.axis.None? then Some(seen.(axis := Some(Column))) else None
    case 'i' => if !seen.serpentine then Some(seen.(serpentine := true)) else None
    case _ => None
  }

  function SeeAll(s: string): Option<Seen> {
    if s == "" then Some(NothingSeen)
    else match SeeAll(s[..|s| - 1])
      case None => None
      case Some(seen) => See(seen, s[|s| - 1])
  }

  function Or<T>(o: Option<T>, default: T): T {
    if o.Some? then o.value else default
  }

  function LayoutOf(seen: Seen): Layout {
    Layout(Or(seen.hEdge, Left), Or(seen.vEdge, Top), Or(seen.axis, Row), seen.serpentine)
  }

  /** What `parse_layout` accepts, and what it makes of it. */
  function ParsedLayout(s: string): Option<Layout> {
    match SeeAll(s) case None => None case Some(seen) => Some(LayoutOf(seen))
  }

  lemma {:induction false} SeeAllPrefix(s: string, n: nat)
    requires n <= |s| && SeeAll(s[..n]).None?
    ensures SeeAll(s).None?
    decreases |s|
  {
    if n == |s| {
      assert s[..n] == s;
    } else {
      assert s[..|s| - 1][..n] == s[..n];
      SeeAllPrefix(s[..|s| - 1], n);
    }
  }

  /** `parse_layout`. */
  method ParseLayout(s: string) returns (layout: Option<Layout>)
    ensures layout == ParsedLayout(s)
  {
    var seen := NothingSeen;
    for i := 0 to |s|
      invariant SeeAll(s[..i]) == Some(seen)
    {
      assert s[..i + 1][..i] == s[..i];
      var next := See(seen, s[i]);
      if next.None? {
        SeeAllPrefix(s, i + 1);
        return None;
      }
      seen := next.value;
    }
    assert s[..|s|] == s;
    layout := Some(LayoutOf(seen));
  }

  function Count(s: string, c: char): nat {
    if s == "" then 0 else Count(s[..|s| - 1], c) + if s[|s| - 1] == c then 1 else 0
  }

  lemma {:induction false} CountIsMultiplicity(s: string, c: char)
    ensures Count(s, c) == multiset(s)[c]
  {
    if s != "" {
      CountIsMultiplicity(s[..|s| - 1], c);
      assert s == s[..|s| - 1] + [s[|s| - 1]];
    }
  }

  predicate IsLayoutLetter(c: char) {
    c == 'r' || c == 'l' || c == 't' || c == 'b' || c == 'x' || c == 'y' || c == 'i'
  }

  /** No part is named twice, and nothing else is given. */
  predicate LayoutText(s: string) {
    && Count(s, 'r') + Count(s, 'l') <= 1 && Count(s, 't') + Count(s, 'b') <= 1
    && Count(s, 'x') + Count(s, 'y') <= 1 && Count(s, 'i') <= 1
    && forall i | 0 <= i < |s| :: IsLayoutLetter(s[i])
  }

  function Named<T>(s: string, a: char, forA: T, b: char, forB: T): Option<T> {
    if Count(s, a) > 0 then Some(forA) else if Count(s, b) > 0 then Some(forB) else None
  }

  /** The parts a text names. */
  function PartsOf(s: string): Seen {
    Seen(Named(s, 'r', Right, 'l', Left), Named(s, 't', Top, 'b', Bottom), Named(s, 'x', Row, 'y', Column),
         Count(s, 'i') > 0)
  }

  lemma {:induction false} SeeAllMeaning(s: string)
    ensures SeeAll(s) == if LayoutText(s) then Some(PartsOf(s)) else None
  {
    if s != "" {
      var init, c := s[..|s| - 1], s[|s| - 1];
      SeeAllMeaning(init);
      if IsLayoutLetter(c) && LayoutText(init) {
        assert LayoutText(s) <==> See(PartsOf(init), c).Some?;
      }
    }
  }

  /**
   What a layout text means: it is accepted exactly when it names no part twice and holds nothing
   else, and then each part is what its letter says, or the default when no letter names it.
   */
  lemma LayoutMeaning(s: string)
    ensures ParsedLayout(s).Some? <==> LayoutText(s)
    ensures LayoutText(s) ==>
      ParsedLayout(s) == Some(
        Layout(if Count(s, 'r') > 0 then Right else Left, if Count(s, 'b') > 0 then Bottom else Top,
               if Count(s, 'y') > 0 then Column else Row, Count(s, 'i') > 0))
  {
    SeeAllMeaning(s);
  }

  /** The letters of a layout may come in any order. */
  lemma LayoutOrderIsFree(a: string, b: string)
    requires multiset(a) == multiset(b)
    ensures ParsedLayout(a) == ParsedLayout(b)
  {
    forall c: char ensures Count(a, c) == Count(b, c) {
      CountIsMultiplicity(a, c);
      CountIsMultiplicity(b, c);
    }
    LayoutMeaning(a);
    LayoutMeaning(b);
    assert LayoutText(a) <==> LayoutText(b) by {
      assert forall c :: c in a <==> c in multiset(a);
      assert forall c :: c in b <==> c in multiset(b);
      assert forall i | 0 <= i < |a| :: a[i] in b;
      assert forall i | 0 <= i < |b| :: b[i] in a;
    }
  }

  /** `layout_to_csv`. */
  function PrintLayout(l: Layout): string {
    [ if l.hEdge == Right then 'r' else 'l', if l.vEdge == Top then 't' else 'b',
      if l.axis == Row then 'x' else 'y' ] + if l.serpentine then "i" else ""
  }

  /** Parsing a printed layout gives it back. */
  lemma LayoutRoundTrip(l: Layout)
    ensures ParsedLayout(PrintLayout(l)) == Some(l) && Plain(PrintLayout(l))
  {
    var s := PrintLayout(l);
    assert s[..1] == [s[0]] && s[..2] == [s[0], s[1]] && s[..3] == [s[0], s[1], s[2]];
    assert [s[0]][..0] == [] && [s[0], s[1]][..1] == [s[0]] && [s[0], s[1], s[2]][..2] == [s[0], s[1]];
    var one := See(NothingSeen, s[0]).value;
    var two := See(one, s[1]).value;
    assert SeeAll([s[0]]) == Some(one);
    assert SeeAll([s[0], s[1]]) == Some(two);
    assert SeeAll(s[..3]) == See(two, s[2]);
    if l.serpentine {
      assert s[..|s| - 1] == s[..3];
    } else {
      assert s == s[..3];
    }
  }

  // ---------------------------------------------------------------- colours

  function HexValue(c: char): (v: Option<nat>)
    ensures v.Some? ==> v.value < 16
  {
    if '0' <= c <= '9' then Some(c as int - '0' as int)
    else if 'a' <= c <= 'f' then Some(c as int - 'a' as int + 10)
    else if 'A' <= c <= 'F' then Some(c as int - 'A' as int + 10)
    else None
  }

  /** `u8::from_str_radix(_, 16)` of one or two characters: a leading `+` is allowed before a digit. */
  function ParseHexByte(chunk: string): (v: Option<Byte>)
    requires 1 <= |chunk| <= 2
  {
    if |chunk| == 1 || chunk[0] == '+' then HexValue(chunk[|chunk| - 1])
    else
      var high, low := HexValue(chunk[0]), HexValue(chunk[1]);
      if high.None? || low.None? then None else Some(16 * high.value + low.value)
  }

  /** Channel `i` of the digits: its chunk of two, or the last one of a single digit; 0 past the end. */
  function ChannelDigits(hex: string, i: nat): Option<Byte> {
    if 2 * i >= |hex| then Some(0)
    else ParseHexByte(hex[2 * i..if 2 * i + 2 <= |hex| then 2 * i + 2 else |hex|])
  }

  function ColorOf(hex: string): Option<Color> {
    var r, g, b := ChannelDigits(hex, 0), ChannelDigits(hex, 1), ChannelDigits(hex, 2);
    var w, c := ChannelDigits(hex, 3), ChannelDigits(hex, 4);
    if r.None? || g.None? || b.None? || w.None? || c.None? then None
    else Some(Color(r.value, g.value, b.value, w.value, c.value))
  }

  /** What `parse_color` accepts, and what it makes of it. */
  function ParsedColor(s: string, emptyDefault: Color): Option<Color> {
    if s == "" then Some(emptyDefault)
    else if s[0] != '#' || |s| - 1 > 2 * 5 then None
    else ColorOf(s[1..])
  }

  /** The chunk loop of `parse_color`, over a fixed table of five values. */
  method ReadChunks(hex: string) returns (color: Option<Color>)
    requires |hex| <= 2 * 5
    ensures color == ColorOf(hex)
  {
    var values: Bytes := [0, 0, 0, 0, 0];
    var i := 0;
    while 2 * i < |hex|
      invariant 0 <= i <= 5 && |values| == 5
      invariant forall k | 0 <= k < 5 :: if k < i then ChannelDigits(hex, k) == Some(values[k]) else values[k] == 0
    {
      var value := ParseHexByte(hex[2 * i..if 2 * i + 2 <= |hex| then 2 * i + 2 else |hex|]);
      if value.None? {
        assert ChannelDigits(hex, i).None?;
        return None;
      }
      values := values[i := value.value];
      i := i + 1;
    }
    assert forall k | 0 <= k < 5 :: ChannelDigits(hex, k) == Some(values[k]);
    color := Some(Color(values[0], values[1], values[2], values[3], values[4]));
  }

  /** `parse_color`. */
  method ParseColor(s: string, emptyDefault: Color) returns (color: Option<Color>)
    ensures color == ParsedColor(s, emptyDefault)
  {
    if s == "" { return Some(emptyDefault); }
    if s[0] != '#' || |s| - 1 > 2 * 5 { return None; }
    color := ReadChunks(s[1..]);
  }

  const LOWER_HEX := "0123456789abcdef"
  const UPPER_HEX := "0123456789ABCDEF"

  /** A hexadecimal digit of either case. */
  lemma HexValueMeaning(c: char, v: nat)
    ensures HexValue(c) == Some(v) <==> v < 16 && (c == LOWER_HEX[v] || c == UPPER_HEX[v])
  {
  }

  /** Digit `k` of a colour's digits; a plus sign, and what is missing, is worth nothing. */
  function Nibble(hex: string, k: nat): nat {
    if k < |hex| && HexValue(hex[k]).Some? then HexValue(hex[k]).value else 0
  }

  /** Pair `i` of the digits: two of them, or a single last one. */
  function Pair(hex: string, i: nat): nat {
    if 2 * i + 1 == |hex| then Nibble(hex, 2 * i) else 16 * Nibble(hex, 2 * i) + Nibble(hex, 2 * i + 1)
  }

  predicate ReadablePair(hex: string, i: nat) {
    if 2 * i >= |hex| then true
    else if 2 * i + 1 == |hex| then HexValue(hex[2 * i]).Some?
    else (hex[2 * i] == '+' || HexValue(hex[2 * i]).Some?) && HexValue(hex[2 * i + 1]).Some?
  }

  lemma ChannelDigitsMeaning(hex: string, i: nat)
    ensures ChannelDigits(hex, i) == if ReadablePair(hex, i) then Some(Pair(hex, i)) else None
  {
    if 2 * i + 1 == |hex| {
      assert hex[2 * i..][0] == hex[2 * i];
    } else if 2 * i < |hex| {
      var chunk := hex[2 * i..2 * i + 2];
      assert chunk[0] == hex[2 * i] && chunk[1] == hex[2 * i + 1];
    }
  }

  /**
   What a colour text means: nothing is the default; else a `#` and at most ten digits, whose pairs
   are red, green, blue, warm white and cold white in this order, 0 where none are given.
   */
  lemma ColorMeaning(s: string, emptyDefault: Color)
    ensures s == "" ==> ParsedColor(s, emptyDefault) == Some(emptyDefault)
    ensures s != "" ==> var hex := s[1..];
      ParsedColor(s, emptyDefault) ==
        if s[0] == '#' && |hex| <= 10 && forall i | 0 <= i < 5 :: ReadablePair(hex, i)
        then Some(Color(Pair(hex, 0), Pair(hex, 1), Pair(hex, 2), Pair(hex, 3), Pair(hex, 4))) else None
  {
    if s != "" {
      ChannelDigitsMeaning(s[1..], 0);
      ChannelDigitsMeaning(s[1..], 1);
      ChannelDigitsMeaning(s[1..], 2);
      ChannelDigitsMeaning(s[1..], 3);
      ChannelDigitsMeaning(s[1..], 4);
    }
  }

  function HexDigit(v: nat): (c: char)
    requires v < 16
    ensures HexValue(c) == Some(v) && c != '+' && Plain([c])
  {
    if v < 10 then ('0' as int + v) as char else ('a' as int + v - 10) as char
  }

  /** `{:02x}`. */
  function HexByte(v: Byte): (s: string)
    ensures |s| == 2
  {
    [HexDigit(v / 16), HexDigit(v % 16)]
  }

  /** `color_to_csv`. */
  function PrintColor(c: Color): string {
    "#" + HexByte(c.r) + HexByte(c.g) + HexByte(c.b) + HexByte(c.w) + HexByte(c.c)
  }

  lemma HexByteRoundTrip(v: Byte)
    ensures ParseHexByte(HexByte(v)) == Some(v) && Plain(HexByte(v))
  {
    var s := HexByte(v);
    assert Plain([s[0]]) && Plain([s[1]]);
    assert s == [s[0]] + [s[1]];
    PlainConcat([s[0]], [s[1]]);
  }

  /** Channel `i` of digits that hold a printed byte there. */
  lemma ChannelRoundTrip(hex: string, i: nat, v: Byte)
    requires 2 * i + 2 <= |hex| && hex[2 * i..2 * i + 2] == HexByte(v)
    ensures ChannelDigits(hex, i) == Some(v)
  {
    HexByteRoundTrip(v);
  }

  lemma FivePairs(r: string, g: string, b: string, w: string, c: string)
    requires |r| == 2 && |g| == 2 && |b| == 2 && |w| == 2 && |c| == 2
    ensures var s := "#" + r + g + b + w + c; var hex := s[1..];
      && |hex| == 10 && s[0] == '#'
      && hex[0..2] == r && hex[2..4] == g && hex[4..6] == b && hex[6..8] == w && hex[8..10] == c
  {
    var s := "#" + r + g + b + w + c;
    assert s == ['#', r[0], r[1], g[0], g[1], b[0], b[1], w[0], w[1], c[0], c[1]];
    assert r == [r[0], r[1]] && g == [g[0], g[1]] && b == [b[0], b[1]] && w == [w[0], w[1]] && c == [c[0], c[1]];
  }

  lemma PrintedColorIsPlain(c: Color)
    ensures Plain(PrintColor(c))
  {
    HexByteRoundTrip(c.r);
    HexByteRoundTrip(c.g);
    HexByteRoundTrip(c.b);
    HexByteRoundTrip(c.w);
    HexByteRoundTrip(c.c);
  }

  /** Parsing a printed colour gives it back, whatever the default. */
  lemma ColorRoundTrip(c: Color, emptyDefault: Color)
    ensures ParsedColor(PrintColor(c), emptyDefault) == Some(c) && Plain(PrintColor(c))
  {
    var hex := PrintColor(c)[1..];
    FivePairs(HexByte(c.r), HexByte(c.g), HexByte(c.b), HexByte(c.w), HexByte(c.c));
    ChannelRoundTrip(hex, 0, c.r);
    ChannelRoundTrip(hex, 1, c.g);
    ChannelRoundTrip(hex, 2, c.b);
    ChannelRoundTrip(hex, 3, c.w);
    ChannelRoundTrip(hex, 4, c.c);
    PrintedColorIsPlain(c);
  }

  /** What a "0" after the digits does to one channel: nothing, unless it completes a lone digit. */
  lemma ZeroAppended(hex: string, i: nat)
    requires ChannelDigits(hex + "0", i).Some?
    ensures 2 * i + 1 != |hex| ==> ChannelDigits(hex, i) == ChannelDigits(hex + "0", i)
    ensures 2 * i + 1 == |hex| ==>
      (ChannelDigits(hex, i) == ChannelDigits(hex + "0", i) <==> hex[|hex| - 1] == '0')
  {
    var longer := hex + "0";
    if 2 * i + 2 <= |hex| {
      assert longer[2 * i..2 * i + 2] == hex[2 * i..2 * i + 2];
    } else if 2 * i + 1 == |hex| {
      var d := hex[2 * i];
      assert longer[2 * i..2 * i + 2] == [d, '0'] && hex[2 * i..] == [d];
      LoneDigit(d);
    } else if 2 * i == |hex| {
      assert longer[2 * i..2 * i + 1] == ['0'];
    }
  }

  /** A digit on its own, and the same followed by a zero; a `+` is only read before a digit. */
  lemma LoneDigit(d: char)
    requires ParseHexByte([d, '0']).Some?
    ensures ParseHexByte([d]) == ParseHexByte([d, '0']) <==> d == '0'
  {
  }

  /**
   The comment above `parse_color` says trailing zero digits can always be trimmed. They can exactly
   when the trimmed text ends on a whole channel, or in another zero.
   */
  lemma TrimmingZeros(s: string, emptyDefault: Color)
    requires |s| >= 1 && ParsedColor(s + "0", emptyDefault).Some?
    ensures ParsedColor(s, emptyDefault) == ParsedColor(s + "0", emptyDefault)
      <==> |s| % 2 == 1 || s[|s| - 1] == '0'
  {
    var hex := s[1..];
    assert (s + "0")[1..] == hex + "0";
    ZeroAppended(hex, 0);
    ZeroAppended(hex, 1);
    ZeroAppended(hex, 2);
    ZeroAppended(hex, 3);
    ZeroAppended(hex, 4);
  }

  /** A text whose trailing zero cannot be trimmed: "#10" sets red to 16, "#1" to 1. */
  lemma TrimmingCanChangeAColor(emptyDefault: Color)
    ensures ParsedColor("#10", emptyDefault) == Some(Color(16, 0, 0, 0, 0))
    ensures ParsedColor("#1", emptyDefault) == Some(Color(1, 0, 0, 0, 0))
  {
    assert "#10"[1..] == "10" && "10"[0..2] == "10";
    assert "#1"[1..] == "1" && "1"[0..1] == "1";
  }

  // ---------------------------------------------------------------- timing

  predicate IsBitText(s: string) {
    forall c | c in s :: c == '0' || c == '1'
  }

  function BitsOf(s: string): seq<bool> {
    seq(|s|, i requires 0 <= i < |s| => s[i] == '1')
  }

  function BitText(bits: seq<bool>): string {
    seq(|bits|, i requires 0 <= i < |bits| => if bits[i] then '1' else '0')
  }

  /** `TimingConfig::parse`. */
  function ParseTiming(high: string, low: string, patternNs: string, resetNs: string): (t: Option<Timing>)
    ensures t.Some? ==> ValidTiming(t.value)
  {
    var resolution := |high|;
    var pattern, reset := ParseUInt(patternNs, 0xFFFF_FFFF), ParseUInt(resetNs, 0xFFFF_FFFF);
    if |low| != resolution || !(MIN_RESOLUTION <= resolution <= MAX_RESOLUTION) || !IsBitText(high + low) then None
    else if pattern.None? || reset.None? || pattern.value < MIN_PATTERN_NS || reset.value > MAX_RESET_NS then None
    else
      FromMsbBound(BitsOf(high));
      FromMsbBound(BitsOf(low));
      Some(Timing(FromMsb(BitsOf(high)), FromMsb(BitsOf(low)), resolution, pattern.value, reset.value))
  }

  /** The parts `TimingConfig::to_csv` joins with colons. */
  function TimingParts(t: Timing): seq<string> {
    [BitText(ToMsb(t.high, t.resolution)), BitText(ToMsb(t.low, t.resolution)), Dec(t.patternNs), Dec(t.resetNs)]
  }

  lemma BitTextRoundTrip(n: nat, resolution: nat)
    requires n < Pow2(resolution)
    ensures var s := BitText(ToMsb(n, resolution));
      |s| == resolution && IsBitText(s) && FromMsb(BitsOf(s)) == n && Plain(s)
  {
    var bits := ToMsb(n, resolution);
    assert BitsOf(BitText(bits)) == bits;
    FromMsbToMsb(n, resolution);
  }

  /** Parsing a printed timing gives it back. */
  lemma TimingRoundTrip(t: Timing)
    requires ValidTiming(t)
    ensures var p := TimingParts(t); ParseTiming(p[0], p[1], p[2], p[3]) == Some(t)
    ensures forall part | part in TimingParts(t) :: Plain(part)
  {
    BitTextRoundTrip(t.high, t.resolution);
    BitTextRoundTrip(t.low, t.resolution);
    ParseDec(t.patternNs, 0xFFFF_FFFF);
    ParseDec(t.resetNs, 0xFFFF_FFFF);
    DecPlain(t.patternNs);
    DecPlain(t.resetNs);
  }

  lemma BitTextIsRead(s: string, bits: seq<bool>)
    ensures s == BitText(bits) <==> IsBitText(s) && BitsOf(s) == bits
  {
    if IsBitText(s) && BitsOf(s) == bits {
      forall i | 0 <= i < |s| ensures s[i] == BitText(bits)[i] {
        assert s[i] in s && BitsOf(s)[i] == bits[i];
      }
    }
    if s == BitText(bits) { assert BitsOf(s) == bits; }
  }

  /** A symbol's text is the pattern it was parsed from, and no other. */
  lemma PatternBits(s: string, n: nat)
    requires n < Pow2(|s|)
    ensures IsBitText(s) && FromMsb(BitsOf(s)) == n <==> s == BitText(ToMsb(n, |s|))
  {
    BitTextIsRead(s, ToMsb(n, |s|));
    FromMsbToMsb(n, |s|);
    ToMsbFromMsb(BitsOf(s));
  }

  lemma BitTextConcat(a: string, b: string)
    ensures IsBitText(a + b) <==> IsBitText(a) && IsBitText(b)
  {
    if IsBitText(a + b) {
      forall c | c in a || c in b ensures c == '0' || c == '1' { assert c in a + b; }
    }
  }

  /**
   Which texts mean which timing: the first spells the symbol of a data "1" as it goes over the wire,
   the second that of a "0", and the numbers are in bounds.
   */
  lemma TimingMeaning(high: string, low: string, patternNs: string, resetNs: string, t: Timing)
    ensures ParseTiming(high, low, patternNs, resetNs) == Some(t) <==>
      && ValidTiming(t) && high == BitText(Symbol(t, true)) && low == BitText(Symbol(t, false))
      && ParseUInt(patternNs, 0xFFFF_FFFF) == Some(t.patternNs) && ParseUInt(resetNs, 0xFFFF_FFFF) == Some(t.resetNs)
  {
    FromMsbBound(BitsOf(high));
    FromMsbBound(BitsOf(low));
    if t.resolution == |high| == |low| && t.high < Pow2(|high|) && t.low < Pow2(|low|) {
      PatternBits(high, t.high);
      PatternBits(low, t.low);
      BitTextConcat(high, low);
    }
  }
}
