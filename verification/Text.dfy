/**
 The string operations the config grammars are written in: `split`, `trim`, integer parsing and
 printing, with the laws that make a printer the inverse of its parser.
 */
module Text {
  import opened Prelude

  // ---------------------------------------------------------------- split and join

  /** `str::split`: always at least one part. */
  function Split(s: string, sep: char): (parts: seq<string>)
    ensures |parts| >= 1
  {
    if s == [] then [[]]
    else
      var rest := Split(s[1..], sep);
      if s[0] == sep then [[]] + rest else [[s[0]] + rest[0]] + rest[1..]
  }

  function Join(parts: seq<string>, sep: char): string
    requires |parts| >= 1
  {
    if |parts| == 1 then parts[0] else parts[0] + [sep] + Join(parts[1..], sep)
  }

  lemma {:induction false} SplitOne(s: string, sep: char)
    requires sep !in s
    ensures Split(s, sep) == [s]
  {
    if s != [] {
      SplitOne(s[1..], sep);
      assert [s[0]] + s[1..] == s;
    }
  }

  lemma {:induction false} SplitCons(s: string, rest: string, sep: char)
    requires sep !in s
    ensures Split(s + [sep] + rest, sep) == [s] + Split(rest, sep)
  {
    var whole := s + [sep] + rest;
    if s == [] {
      assert whole[1..] == rest;
    } else {
      SplitCons(s[1..], rest, sep);
      assert whole[1..] == s[1..] + [sep] + rest;
      assert [s[0]] + s[1..] == s;
    }
  }

  /** Splitting undoes joining, for parts that do not hold the separator. */
  lemma {:induction false} SplitJoin(parts: seq<string>, sep: char)
    requires |parts| >= 1 && forall p | p in parts :: sep !in p
    ensures Split(Join(parts, sep), sep) == parts
  {
    if |parts| == 1 {
      SplitOne(parts[0], sep);
      assert parts == [parts[0]];
    } else {
      SplitJoin(parts[1..], sep);
      SplitCons(parts[0], Join(parts[1..], sep), sep);
      assert [parts[0]] + parts[1..] == parts;
    }
  }

  /** The parts of a text hold its characters, the separators apart. */
  lemma {:induction false} SplitChars(s: string, sep: char)
    ensures forall p | p in Split(s, sep) :: sep !in p && forall c | c in p :: c in s
  {
    if s != [] {
      SplitChars(s[1..], sep);
      var rest := Split(s[1..], sep);
      assert rest[0] in rest && forall p | p in rest[1..] :: p in rest;
    }
  }

  /** And joining them gives the text back. */
  lemma {:induction false} JoinSplit(s: string, sep: char)
    ensures Join(Split(s, sep), sep) == s
  {
    if s != [] {
      JoinSplit(s[1..], sep);
      var rest := Split(s[1..], sep);
      assert s == [s[0]] + s[1..];
      if s[0] == sep {
        assert ([[]] + rest)[1..] == rest;
        assert [] + [sep] + Join(rest, sep) == s;
      } else {
        assert ([[s[0]] + rest[0]] + rest[1..])[1..] == rest[1..];
      }
    }
  }

  /** How long a joined text is, one part at a time. */
  lemma JoinLength(parts: seq<string>, sep: char)
    requires |parts| >= 1
    ensures |Join(parts, sep)| == |parts[0]| + if |parts| == 1 then 0 else 1 + |Join(parts[1..], sep)|
  {
  }

  lemma {:induction false} JoinBound(parts: seq<string>, sep: char, bound: nat)
    requires |parts| >= 1 && forall i | 0 < i < |parts| :: |parts[i]| <= bound
    ensures |Join(parts, sep)| <= |parts[0]| + (|parts| - 1) * (bound + 1)
  {
    if |parts| > 1 {
      JoinBound(parts[1..], sep, bound);
      assert |parts[1]| <= bound;
      assert (|parts| - 2) * (bound + 1) + (bound + 1) == (|parts| - 1) * (bound + 1);
    }
  }

  /** A joined text starts and ends as its first and last parts do. */
  lemma {:induction false} JoinEnds(parts: seq<string>, sep: char)
    requires |parts| >= 1 && parts[|parts| - 1] != ""
    ensures var s := Join(parts, sep); var last := parts[|parts| - 1];
      && s != "" && s[|s| - 1] == last[|last| - 1]
      && (parts[0] != "" ==> s[0] == parts[0][0])
  {
    if |parts| > 1 { JoinEnds(parts[1..], sep); }
  }

  /** A joined text holds nothing but its parts and separators. */
  lemma {:induction false} JoinChars(parts: seq<string>, sep: char, c: char)
    requires |parts| >= 1 && c in Join(parts, sep)
    ensures c == sep || exists p :: p in parts && c in p
  {
    if |parts| > 1 && c !in parts[0] && c != sep {
      assert c in Join(parts[1..], sep);
      JoinChars(parts[1..], sep, c);
      var p :| p in parts[1..] && c in p;
      assert p in parts;
    } else if c != sep {
      assert parts[0] in parts;
    }
  }

  // ---------------------------------------------------------------- trim

  /** `char::is_whitespace`: the Unicode White_Space property. */
  predicate IsSpace(c: char) {
    var n := c as int;
    || 0x09 <= n <= 0x0D || n == 0x20 || n == 0x85 || n == 0xA0 || n == 0x1680
    || 0x2000 <= n <= 0x200A || n == 0x2028 || n == 0x2029 || n == 0x202F || n == 0x205F || n == 0x3000
  }

  function TrimStart(s: string): string {
    if s != [] && IsSpace(s[0]) then TrimStart(s[1..]) else s
  }

  function TrimEnd(s: string): string {
    if s != [] && IsSpace(s[|s| - 1]) then TrimEnd(s[..|s| - 1]) else s
  }

  /** `str::trim`. */
  function Trim(s: string): string {
    TrimEnd(TrimStart(s))
  }

  function TrimAll(parts: seq<string>): (trimmed: seq<string>)
    ensures |trimmed| == |parts|
  {
    seq(|parts|, i requires 0 <= i < |parts| => Trim(parts[i]))
  }

  /** Text the grammars print: no separator, no white space, nothing to trim. */
  predicate Plain(s: string) {
    forall c | c in s :: c != ',' && c != ':' && !IsSpace(c)
  }

  lemma PlainConcat(a: string, b: string)
    requires Plain(a) && Plain(b)
    ensures Plain(a + b)
  {
  }

  predicate Spaceless(s: string) {
    forall c | c in s :: !IsSpace(c)
  }

  lemma TrimSpaceless(s: string)
    requires Spaceless(s)
    ensures Trim(s) == s
  {
  }

  lemma TrimAllSpaceless(parts: seq<string>)
    requires forall p | p in parts :: Spaceless(p)
    ensures TrimAll(parts) == parts
  {
    forall i | 0 <= i < |parts| ensures Trim(parts[i]) == parts[i] {
      TrimSpaceless(parts[i]);
    }
  }

  /** Nothing to trim at either end. */
  predicate Trimmed(s: string) {
    s == "" || (!IsSpace(s[0]) && !IsSpace(s[|s| - 1]))
  }

  lemma {:induction false} TrimEndResult(s: string)
    ensures TrimEnd(s) == "" || (!IsSpace(TrimEnd(s)[|TrimEnd(s)| - 1]) && TrimEnd(s)[0] == s[0])
    ensures forall c | c in TrimEnd(s) :: c in s
  {
    if s != "" && IsSpace(s[|s| - 1]) { TrimEndResult(s[..|s| - 1]); }
  }

  lemma {:induction false} TrimStartResult(s: string)
    ensures TrimStart(s) == "" || !IsSpace(TrimStart(s)[0])
    ensures forall c | c in TrimStart(s) :: c in s
  {
    if s != "" && IsSpace(s[0]) { TrimStartResult(s[1..]); }
  }

  /** Trimming takes characters from the ends only, and leaves none to take. */
  lemma TrimResult(s: string)
    ensures Trimmed(Trim(s)) && forall c | c in Trim(s) :: c in s
  {
    TrimStartResult(s);
    TrimEndResult(TrimStart(s));
  }

  lemma TrimTrimmed(s: string)
    requires Trimmed(s)
    ensures Trim(s) == s
  {
  }

  lemma TrimAllTrimmed(parts: seq<string>)
    requires forall p | p in parts :: Trimmed(p)
    ensures TrimAll(parts) == parts
  {
    forall i | 0 <= i < |parts| ensures Trim(parts[i]) == parts[i] {
      TrimTrimmed(parts[i]);
    }
  }

  /** White space around a text is trimmed away. */
  lemma {:induction false} TrimPadded(before: string, s: string, after: string)
    requires Trimmed(s) && AllSpace(before) && AllSpace(after)
    ensures Trim(before + s + after) == s
    decreases |before| + |after|
  {
    if before != "" {
      TrimPadded(before[1..], s, after);
      assert (before + s + after)[1..] == before[1..] + s + after;
    } else {
      assert before + s + after == s + after;
      TrimEndPadded(s, after);
      if s == "" {
        TrimSpace(after);
        assert s + after == after;
      } else {
        assert (s + after)[0] == s[0];
      }
    }
  }

  predicate AllSpace(s: string) {
    forall i | 0 <= i < |s| :: IsSpace(s[i])
  }

  lemma {:induction false} TrimEndPadded(s: string, after: string)
    requires Trimmed(s) && AllSpace(after)
    ensures TrimEnd(s + after) == s
  {
    if after == "" {
      assert s + after == s;
    } else {
      assert (s + after)[..|s + after| - 1] == s + after[..|after| - 1];
      TrimEndPadded(s, after[..|after| - 1]);
    }
  }

  lemma {:induction false} TrimSpace(s: string)
    requires AllSpace(s)
    ensures TrimStart(s) == ""
  {
    if s != "" { TrimSpace(s[1..]); }
  }

  /** What a text that is split at `sep` and trimmed can hold as a field. */
  predicate IsField(s: string, sep: char) {
    Trimmed(s) && sep !in s
  }

  lemma FieldsOf(s: string, sep: char)
    ensures forall p | p in TrimAll(Split(s, sep)) :: IsField(p, sep) && forall c | c in p :: c in s
  {
    SplitChars(s, sep);
    forall i | 0 <= i < |Split(s, sep)|
      ensures var p := Trim(Split(s, sep)[i]); IsField(p, sep) && forall c | c in p :: c in s
    {
      assert Split(s, sep)[i] in Split(s, sep);
      TrimResult(Split(s, sep)[i]);
    }
  }

  /** Fields that are joined are split again as they were. */
  lemma SplitFields(parts: seq<string>, sep: char)
    requires |parts| >= 1 && forall p | p in parts :: IsField(p, sep)
    ensures TrimAll(Split(Join(parts, sep), sep)) == parts
  {
    SplitJoin(parts, sep);
    TrimAllTrimmed(parts);
  }

  // ---------------------------------------------------------------- decimal

  predicate IsDigit(c: char) {
    '0' <= c <= '9'
  }

  predicate AllDigits(s: string) {
    forall c | c in s :: IsDigit(c)
  }

  function DigitValue(c: char): (v: nat)
    requires IsDigit(c)
    ensures v < 10
  {
    c as int - '0' as int
  }

  function Digit(v: nat): (c: char)
    requires v < 10
    ensures IsDigit(c) && DigitValue(c) == v
  {
    ('0' as int + v) as char
  }

  function DecValue(s: string): nat
    requires AllDigits(s)
  {
    if s == [] then 0 else DecValue(s[..|s| - 1]) * 10 + DigitValue(s[|s| - 1])
  }

  /** How `{}` prints an unsigned integer. */
  function Dec(n: nat): (s: string)
    ensures |s| >= 1 && AllDigits(s)
  {
    if n < 10 then [Digit(n)] else Dec(n / 10) + [Digit(n % 10)]
  }

  /** How `{}` prints a signed integer. */
  function DecInt(z: int): (s: string)
    ensures |s| >= 1
  {
    if z < 0 then ['-'] + Dec(-z) else Dec(z)
  }

  /** `str::parse` of an unsigned integer type with maximum `max`: an optional `+`, then digits. */
  function ParseUInt(s: string, max: nat): (n: Option<nat>)
    ensures n.Some? ==> n.value <= max
  {
    var digits := if |s| > 1 && s[0] == '+' then s[1..] else s;
    if digits != [] && AllDigits(digits) && DecValue(digits) <= max then Some(DecValue(digits)) else None
  }

  function NegativeOf(n: int): Option<int> {
    Some(-n)
  }

  /** `str::parse` of a signed integer type. */
  function ParseInt(s: string, min: int, max: nat): (z: Option<int>)
    requires min <= 0
    ensures z.Some? ==> min <= z.value <= max
  {
    if |s| > 1 && s[0] == '-'
    then
      var digits := s[1..];
      if AllDigits(digits) && DecValue(digits) <= -min then NegativeOf(DecValue(digits)) else None
    else ParseUInt(s, max)
  }

  lemma {:induction false} DecValueDec(n: nat)
    ensures DecValue(Dec(n)) == n
  {
    if n >= 10 {
      DecValueDec(n / 10);
      assert Dec(n)[..|Dec(n)| - 1] == Dec(n / 10);
    }
  }

  lemma DecPlain(n: nat)
    ensures Plain(Dec(n))
  {
  }

  lemma DecIntPlain(z: int)
    ensures Plain(DecInt(z))
  {
    DecPlain(if z < 0 then -z else z);
  }

  lemma ParseDec(n: nat, max: nat)
    requires n <= max
    ensures ParseUInt(Dec(n), max) == Some(n)
  {
    DecValueDec(n);
    assert IsDigit(Dec(n)[0]);
  }

  lemma ParseDecInt(z: int, min: int, max: nat)
    requires min <= z <= max && min <= 0
    ensures ParseInt(DecInt(z), min, max) == Some(z)
  {
    if z < 0 {
      DecValueDec(-z);
      assert DecInt(z)[1..] == Dec(-z);
    } else {
      ParseDec(z, max);
      assert IsDigit(Dec(z)[0]);
    }
  }

  /** `digits` spell `n`. */
  predicate Spells(digits: string, n: int) {
    digits != "" && AllDigits(digits) && DecValue(digits) == n
  }

  /** What an unsigned integer's text is: digits, leading zeros included, after at most one plus sign. */
  lemma ParseUIntMeaning(s: string, max: nat, n: nat)
    ensures ParseUInt(s, max) == Some(n) <==>
      n <= max && (Spells(s, n) || (|s| > 1 && s[0] == '+' && Spells(s[1..], n)))
  {
    NoSignIsADigit(s);
  }

  lemma NoSignIsADigit(s: string)
    ensures s != "" && (s[0] == '+' || s[0] == '-') ==> !AllDigits(s)
  {
    if s != "" { assert s[0] in s; }
  }

  /** And a signed one's: after at most one sign. */
  lemma ParseIntMeaning(s: string, min: int, max: nat, z: int)
    requires min <= 0
    ensures ParseInt(s, min, max) == Some(z) <==>
      && min <= z <= max
      && (|| Spells(s, z)
          || (|s| > 1 && s[0] == '+' && Spells(s[1..], z))
          || (|s| > 1 && s[0] == '-' && Spells(s[1..], -z)))
  {
    NoSignIsADigit(s);
    if z >= 0 { ParseUIntMeaning(s, max, z); }
  }

  /** What digits stand for, read from the left: a leading zero changes nothing. */
  lemma {:induction false} DecValueCons(c: char, s: string)
    requires IsDigit(c) && AllDigits(s)
    ensures DecValue([c] + s) == DigitValue(c) * Pow10(|s|) + DecValue(s)
  {
    if s == "" {
      assert [c] + s == [c];
    } else {
      var init := s[..|s| - 1];
      DecValueCons(c, init);
      assert ([c] + s)[..|s|] == [c] + init;
      assert DigitValue(c) * Pow10(|s|) == DigitValue(c) * Pow10(|init|) * 10;
    }
  }

  function Pow10(k: nat): (p: nat)
    ensures p >= 1
  {
    if k == 0 then 1 else 10 * Pow10(k - 1)
  }

  /** A number below 10^k takes at most k digits. */
  lemma {:induction false} DecLength(n: nat, k: nat)
    requires k >= 1 && n < Pow10(k)
    ensures |Dec(n)| <= k
  {
    if n >= 10 {
      assert k >= 2;
      DecLength(n / 10, k - 1);
    }
  }

  // ---------------------------------------------------------------- bytes

  function CharLen(c: char): nat {
    var n := c as int;
    if n < 0x80 then 1 else if n < 0x800 then 2 else if n < 0x1_0000 then 3 else 4
  }

  /** Bytes of a text in UTF-8 (`str::len`). */
  function Utf8Len(s: string): nat {
    if s == "" then 0 else Utf8Len(s[..|s| - 1]) + CharLen(s[|s| - 1])
  }

  lemma {:induction false} Utf8LenConcat(a: string, b: string)
    ensures Utf8Len(a + b) == Utf8Len(a) + Utf8Len(b)
  {
    if b == "" {
      assert a + b == a;
    } else {
      Utf8LenConcat(a, b[..|b| - 1]);
      assert (a + b)[..|a + b| - 1] == a + b[..|b| - 1];
    }
  }

  predicate Ascii(s: string) {
    forall i | 0 <= i < |s| :: s[i] as int < 0x80
  }

  /** ASCII text has a byte per character. */
  lemma {:induction false} AsciiLen(s: string)
    requires Ascii(s)
    ensures Utf8Len(s) == |s|
  {
    if s != "" { AsciiLen(s[..|s| - 1]); }
  }

  lemma AsciiConcat(a: string, b: string)
    requires Ascii(a) && Ascii(b)
    ensures Ascii(a + b)
  {
  }

  lemma {:induction false} AsciiJoin(parts: seq<string>, sep: char)
    requires |parts| >= 1 && sep as int < 0x80 && forall p | p in parts :: Ascii(p)
    ensures Ascii(Join(parts, sep))
  {
    assert Ascii(parts[0]);
    if |parts| > 1 {
      AsciiJoin(parts[1..], sep);
      AsciiConcat(parts[0] + [sep], Join(parts[1..], sep));
    }
  }

  lemma AsciiDec(n: nat)
    ensures Ascii(Dec(n))
  {
    forall i | 0 <= i < |Dec(n)| ensures Dec(n)[i] as int < 0x80 {
      assert Dec(n)[i] in Dec(n);
    }
  }
}
