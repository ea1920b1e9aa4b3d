/**
 The PWM outputs of the VM (src/int_pwm.rs): six LEDC channels on one timer, duties kept as
 fractions, and what every sequence of calls keeps. What the peripheral answers is arbitrary.
 */
module PwmModel {
  import opened Prelude
  import opened Arith
  import opened Bits

  const CHANNELS := 6
  const TIMER_CLOCK := 80_000_000
  const MAX_BITS := 14
  const FULL := 0x1_0000
  const ATOM_MAX := 32767

  /** `int_gpio::ALLOWED`. */
  const ALLOWED: set<int> := {0, 4, 5, 6, 7, 10}

  datatype Error = NoError | InterruptError | UnimplementedInterruptFunc

  /** The fields of `Pwm`, and the duty count each channel of the peripheral was last given. */
  datatype PwmState = PwmState(pins: seq<Option<int>>, duty: seq<nat>, frequency: nat, bits: nat, programmed: seq<nat>)

  /** What the peripheral answers during one call: the resolutions it takes, the frequency it reaches. */
  datatype Ledc = Ledc(accepts: nat -> bool, reached: nat, configOk: bool)

  predicate Shaped(s: PwmState) {
    |s.pins| == CHANNELS && |s.duty| == CHANNELS && |s.programmed| == CHANNELS
  }

  // ---------------------------------------------------------------- the channel table

  function FindFrom(pins: seq<Option<int>>, entry: Option<int>, from: nat): (c: Option<nat>)
    requires from <= |pins|
    ensures c.Some? ==> from <= c.value < |pins| && pins[c.value] == entry
    ensures c.None? ==> forall i | from <= i < |pins| :: pins[i] != entry
    decreases |pins| - from
  {
    if from == |pins| then None else if pins[from] == entry then Some(from) else FindFrom(pins, entry, from + 1)
  }

  /** `channel`: the channel of a pin. */
  function Channel(pins: seq<Option<int>>, pin: int): Option<nat> {
    FindFrom(pins, Some(pin), 0)
  }

  /** The pin's channel, or else the first free one. */
  function ChannelOrFree(pins: seq<Option<int>>, pin: int): (c: Option<nat>)
    ensures c.Some? ==> c.value < |pins| && (pins[c.value] == None || pins[c.value] == Some(pin))
  {
    if Channel(pins, pin).Some? then Channel(pins, pin) else FindFrom(pins, None, 0)
  }

  // ---------------------------------------------------------------- the timer

  /** `ilog2`. */
  function Log2(n: nat): (k: nat)
    requires n >= 1
    ensures Pow2(k) <= n < Pow2(k + 1)
  {
    if n == 1 then 0 else Log2(n / 2) + 1
  }

  /** The finest resolution tried for a frequency. */
  function TopBits(frequency: nat): nat
    requires frequency > 0
  {
    var periods := TIMER_CLOCK / frequency;
    var log := Log2(if periods >= 1 then periods else 1);
    if log < MAX_BITS then log else MAX_BITS
  }

  /** The first resolution from `top` down to 1 that the timer takes. */
  function ChooseBits(top: nat, accepts: nat -> bool): (bits: Option<nat>)
    ensures bits.Some? ==> 1 <= bits.value <= top && accepts(bits.value)
    ensures bits.Some? ==> forall b | bits.value < b <= top :: !accepts(b)
    ensures bits.None? ==> forall b | 1 <= b <= top :: !accepts(b)
  {
    if top == 0 then None else if accepts(top) then Some(top) else ChooseBits(top - 1, accepts)
  }

  /** The count a duty is programmed as. */
  function Count(duty: nat, bits: nat): nat {
    duty * Pow2(bits) / FULL
  }

  /** Every channel in use is given its duty again at a new resolution. */
  function Reapplied(s: PwmState, bits: nat): seq<nat>
    requires Shaped(s)
  {
    seq(CHANNELS, c requires 0 <= c < CHANNELS =>
      if s.pins[c].Some? then Count(s.duty[c], bits) else s.programmed[c])
  }

  /** `set_frequency`. */
  function SetFrequency(s: PwmState, frequency: nat, ledc: Ledc): (PwmState, nat)
    requires Shaped(s) && frequency > 0
  {
    match ChooseBits(TopBits(frequency), ledc.accepts)
    case None => (s, 0)
    case Some(bits) => (s.(bits := bits, frequency := ledc.reached, programmed := Reapplied(s, bits)), ledc.reached)
  }

  // ---------------------------------------------------------------- the calls

  /** Configuring a pin's channel; a free one starts with no duty. */
  function Configured(s: PwmState, c: nat, pin: int, reached: nat, configOk: bool): (r: (PwmState, int))
    requires Shaped(s) && c < CHANNELS
    ensures Shaped(r.0)
  {
    var duty := if s.pins[c].None? then s.duty[c := 0] else s.duty;
    if !configOk then (s.(duty := duty), 0)
    else
      (s.(duty := duty, pins := s.pins[c := Some(pin)], programmed := s.programmed[c := Count(duty[c], s.bits)]),
       if reached < ATOM_MAX then reached else ATOM_MAX)
  }

  /** Setting a pin up at a frequency; the result is what is pushed. */
  function Setup(s: PwmState, pin: int, frequency: int, ledc: Ledc): (r: (PwmState, int, Error))
    requires Shaped(s)
    ensures Shaped(r.0)
  {
    if frequency <= 0 then (s, 0, InterruptError)
    else
      var (t, reached) := SetFrequency(s, frequency, ledc);
      if reached == 0 then (t, 0, NoError)
      else match ChannelOrFree(t.pins, pin)
        case None => (t, 0, InterruptError)
        case Some(c) =>
          var (u, result) := Configured(t, c, pin, reached, ledc.configOk);
          (u, result, NoError)
  }

  function Min(a: nat, b: nat): nat {
    if a < b then a else b
  }

  /** A duty of `value` parts in `max`. */
  function FractionDuty(value: nat, max: nat): nat
    requires max > 0
  {
    Min(value, max) * FULL / max
  }

  /** A duty of `value` microseconds of the period. */
  function PulseDuty(value: nat, frequency: nat): nat {
    Min(value * frequency * FULL / 1_000_000, FULL)
  }

  /** Giving a pin a duty: `max` is only used by a fraction. */
  function SetDuty(s: PwmState, pin: int, fraction: bool, value: int, max: int): (r: (PwmState, Error))
    requires Shaped(s)
    ensures Shaped(r.0)
  {
    match Channel(s.pins, pin)
    case None => (s, InterruptError)
    case Some(c) =>
      if value < 0 || (fraction && max <= 0) then (s, InterruptError)
      else
        var duty := if fraction then FractionDuty(value, max) else PulseDuty(value, s.frequency);
        (s.(duty := s.duty[c := duty], programmed := s.programmed[c := Count(duty, s.bits)]), NoError)
  }

  /** Stopping a pin. */
  function Stop(s: PwmState, pin: int): (r: (PwmState, Error))
    requires Shaped(s)
    ensures Shaped(r.0)
  {
    match Channel(s.pins, pin)
    case None => (s, InterruptError)
    case Some(c) => (s.(pins := s.pins[c := None]), NoError)
  }

  /** How many operands function `op` takes after the pin, and how many results it pushes. */
  function Operands(op: int): nat {
    if op == 0 || op == 2 then 1 else if op == 1 then 2 else 0
  }

  /** `call`, on a stack whose top is first. */
  function Call(s: PwmState, stack: seq<int>, op: int, ledc: Ledc): (r: (PwmState, seq<int>, Error))
    requires Shaped(s) && |stack| >= 1 + Operands(op)
    ensures Shaped(r.0)
  {
    var pin, rest := stack[0], stack[1 + Operands(op)..];
    if !(0 <= op <= 3) then (s, rest, UnimplementedInterruptFunc)
    else if pin !in ALLOWED then (s, if op == 0 then [0] + rest else rest, InterruptError)
    else if op == 0 then
      var (t, result, error) := Setup(s, pin, stack[1], ledc);
      (t, [result] + rest, error)
    else if op == 3 then
      var (t, error) := Stop(s, pin);
      (t, rest, error)
    else
      var (t, error) := SetDuty(s, pin, op == 1, stack[1], if op == 1 then stack[2] else 0);
      (t, rest, error)
  }

  // ---------------------------------------------------------------- arithmetic

  /** The resolutions tried are exactly those up to 14 bits whose period the timer clock can count. */
  lemma TopBitsMeaning(frequency: nat, b: nat)
    requires frequency > 0 && b >= 1
    ensures b <= TopBits(frequency) <==> b <= MAX_BITS && Pow2(b) * frequency <= TIMER_CLOCK
  {
    var periods := TIMER_CLOCK / frequency;
    QuotientAtLeast(TIMER_CLOCK, frequency, Pow2(b));
    if periods >= 1 {
      LogAtLeast(periods, b);
    } else {
      LogAtLeast(1, b);
      Pow2Grows(1, b);
      assert Pow2(1) == 2;
    }
  }

  lemma QuotientAtLeast(n: nat, d: nat, q: nat)
    requires d > 0
    ensures q <= n / d <==> q * d <= n
  {
    assert n == d * (n / d) + n % d;
    MulMonotone(d, q, n / d);
    MulMonotone(d, n / d + 1, q);
  }

  lemma {:induction false} Pow2Grows(a: nat, b: nat)
    requires a <= b
    ensures Pow2(a) <= Pow2(b)
  {
    if a < b { Pow2Grows(a, b - 1); }
  }

  lemma LogAtLeast(n: nat, b: nat)
    requires n >= 1
    ensures b <= Log2(n) <==> Pow2(b) <= n
  {
    if b <= Log2(n) { Pow2Grows(b, Log2(n)); } else { Pow2Grows(Log2(n) + 1, b); }
  }

  /** Dividing in two steps is dividing by the product. */
  lemma DivTwice(n: nat, d: nat, k: nat)
    requires d > 0 && k > 0
    ensures d * k > 0 && n / d / k == n / (d * k)
  {
    MulMonotone(d, 1, k);
    var q, r := Quotient(n, d);
    var p, m := Quotient(q, k);
    SplitTwice(d, k, p, m, r);
    DivModOf(d * k, p, d * m + r);
  }

  lemma SplitTwice(d: nat, k: nat, p: nat, m: nat, r: nat)
    requires m < k && r < d
    ensures d * (k * p + m) + r == (d * k) * p + (d * m + r) && d * m + r < d * k
  {
    MulMonotone(d, m + 1, k);
    assert d * (m + 1) == d * m + d;
    assert d * (k * p + m) == d * (k * p) + d * m;
    assert d * (k * p) == (d * k) * p;
  }

  lemma CancelFactor(n: nat, d: nat, k: nat)
    requires d > 0 && k > 0
    ensures d * k > 0 && (n * k) / (d * k) == n / d
  {
    DivTwice(n * k, k, d);
    DivModOf(k, n, 0);
    assert k * d == d * k && n * k == k * n;
  }

  lemma {:induction false} Pow2Splits(bits: nat, total: nat)
    requires bits <= total
    ensures Pow2(bits) * Pow2(total - bits) == Pow2(total)
  {
    if bits > 0 {
      Pow2Splits(bits - 1, total - 1);
      assert Pow2(bits) == 2 * Pow2(bits - 1) && Pow2(total) == 2 * Pow2(total - 1);
    }
  }

  /** Cutting n/d to units of 1/(b*k) and then to units of 1/b. */
  lemma CutTwice(n: nat, d: nat, b: nat, k: nat)
    requires d > 0 && b > 0 && k > 0
    ensures b * k > 0 && n * (b * k) / d * b / (b * k) == n * b / d
  {
    MulMonotone(b, 1, k);
    var f := n * (b * k) / d;
    CancelFactor(f, k, b);
    assert f * b / (b * k) == f / k by { assert k * b == b * k; }
    assert n * (b * k) == (n * b) * k;
    DivTwice(n * (b * k), d, k);
    CancelFactor(n * b, d, k);
  }

  lemma FullIsPow2()
    ensures Pow2(16) == FULL
  {
    assert Pow2(4) == 16 && Pow2(8) == 256 && Pow2(12) == 4096;
  }

  /**
   Truncating twice loses nothing: keeping n/d as a whole number of 65536ths and then cutting it to
   `bits` bits gives what cutting n/d to `bits` bits gives, at every resolution.
   */
  lemma TruncatingTwice(n: nat, d: nat, bits: nat)
    requires d > 0 && bits <= 16
    ensures Count(n * FULL / d, bits) == n * Pow2(bits) / d
  {
    FullIsPow2();
    Pow2Splits(bits, 16);
    CutTwice(n, d, Pow2(bits), Pow2(16 - bits));
  }

  /** A capped pulse is the fraction it covers of the period, capped at all of it. */
  lemma PulseIsFraction(value: nat, frequency: nat)
    ensures PulseDuty(value, frequency) == FractionDuty(value * frequency, 1_000_000)
  {
    var n := value * frequency;
    if n >= 1_000_000 {
      QuotientAtLeast(n * FULL, 1_000_000, FULL);
    } else {
      QuotientAtLeast(n * FULL, 1_000_000, FULL + 1);
    }
  }

  lemma FractionBound(value: nat, max: nat)
    requires max > 0
    ensures FractionDuty(value, max) <= FULL
  {
    QuotientAtLeast(Min(value, max) * FULL, max, FULL + 1);
  }
}
