/** What every sequence of PWM calls keeps, whatever the peripheral answers, and what follows. */
module PwmProofs {
  import opened Prelude
  import opened Bits
  import opened PwmModel

  datatype Step = Step(op: int, stack: seq<int>, ledc: Ledc)

  /** The stack holds the operands that the function takes. */
  predicate Possible(step: Step) {
    |step.stack| >= 1 + Operands(step.op)
  }

  function Apply(s: PwmState, step: Step): (t: PwmState)
    requires Shaped(s) && Possible(step)
    ensures Shaped(t)
  {
    Call(s, step.stack, step.op, step.ledc).0
  }

  function Run(s: PwmState, steps: seq<Step>): (t: PwmState)
    requires Shaped(s) && forall step | step in steps :: Possible(step)
    ensures Shaped(t)
  {
    if steps == [] then s else Apply(Run(s, steps[..|steps| - 1]), steps[|steps| - 1])
  }

  /** Pins in use are allowed and distinct. */
  predicate Table(pins: seq<Option<int>>) {
    && (forall c | 0 <= c < |pins| :: pins[c].Some? ==> pins[c].value in ALLOWED)
    && forall c, e | 0 <= c < e < |pins| :: pins[c].Some? ==> pins[c] != pins[e]
  }

  predicate Inv(s: PwmState) {
    && Shaped(s) && s.bits <= MAX_BITS && Table(s.pins)
    && (forall c | 0 <= c < CHANNELS :: s.duty[c] <= FULL)
    && forall c | 0 <= c < CHANNELS :: s.pins[c].Some? ==> s.programmed[c] == Count(s.duty[c], s.bits)
  }

  /** `Pwm::default`. */
  predicate Initial(s: PwmState) {
    Shaped(s) && s.bits == 0 && forall c | 0 <= c < CHANNELS :: s.pins[c].None? && s.duty[c] == 0
  }

  // ---------------------------------------------------------------- each call keeps it

  lemma SetFrequencyKeeps(s: PwmState, frequency: nat, ledc: Ledc)
    requires Inv(s) && frequency > 0
    ensures var t := SetFrequency(s, frequency, ledc).0; Inv(t) && t.pins == s.pins && t.duty == s.duty
  {
  }

  lemma SetupKeeps(s: PwmState, pin: int, frequency: int, ledc: Ledc)
    requires Inv(s) && pin in ALLOWED
    ensures Inv(Setup(s, pin, frequency, ledc).0)
  {
    if frequency > 0 { SetFrequencyKeeps(s, frequency, ledc); }
  }

  lemma SetDutyKeeps(s: PwmState, pin: int, fraction: bool, value: int, max: int)
    requires Inv(s)
    ensures Inv(SetDuty(s, pin, fraction, value, max).0)
  {
    if fraction && value >= 0 && max > 0 { FractionBound(value, max); }
  }

  lemma StepKeeps(s: PwmState, step: Step)
    requires Inv(s) && Possible(step)
    ensures Inv(Apply(s, step))
  {
    var pin := step.stack[0];
    if pin in ALLOWED {
      if step.op == 0 {
        SetupKeeps(s, pin, step.stack[1], step.ledc);
      } else if step.op == 1 {
        SetDutyKeeps(s, pin, true, step.stack[1], step.stack[2]);
      } else if step.op == 2 {
        SetDutyKeeps(s, pin, false, step.stack[1], 0);
      }
    }
  }

  /** From the start, every run of calls keeps the table's pins distinct and its duties programmed. */
  lemma {:induction false} RunKeeps(s: PwmState, steps: seq<Step>)
    requires Inv(s) && forall step | step in steps :: Possible(step)
    ensures Inv(Run(s, steps))
  {
    if steps != [] {
      RunKeeps(s, steps[..|steps| - 1]);
      StepKeeps(Run(s, steps[..|steps| - 1]), steps[|steps| - 1]);
    }
  }

  lemma InitialInv(s: PwmState)
    requires Initial(s)
    ensures Inv(s)
  {
  }

  // ---------------------------------------------------------------- theorems

  function Used(pins: seq<Option<int>>): (used: set<int>)
    ensures forall pin :: pin in used <==> Some(pin) in pins
  {
    if pins == [] then {} else
      var rest := Used(pins[..|pins| - 1]);
      var last := pins[|pins| - 1];
      assert pins == pins[..|pins| - 1] + [last];
      if last.Some? then rest + {last.value} else rest
  }

  lemma {:induction false} UsedCount(pins: seq<Option<int>>)
    requires Table(pins) && forall c | 0 <= c < |pins| :: pins[c].Some?
    ensures |Used(pins)| == |pins|
  {
    if pins != [] {
      var init := pins[..|pins| - 1];
      UsedCount(init);
      assert pins[|pins| - 1] !in init;
    }
  }

  lemma SubsetOfSameSize(a: set<int>, b: set<int>)
    requires a <= b && |a| == |b|
    ensures a == b
  {
    assert a * b == a && |b - a| == 0;
    assert b - a == {};
  }

  /**
   After any run of calls there is a channel for every allowed pin, so the branch for running out of
   channels is never taken: six distinct pins in use are all six that are allowed.
   */
  lemma ChannelForEveryPin(first: PwmState, steps: seq<Step>, pin: int)
    requires Initial(first) && (forall step | step in steps :: Possible(step)) && pin in ALLOWED
    ensures ChannelOrFree(Run(first, steps).pins, pin).Some?
  {
    InitialInv(first);
    RunKeeps(first, steps);
    TableHasChannel(Run(first, steps).pins, pin);
  }

  /** Pigeonhole: as many distinct pins as are allowed are all of them. */
  lemma FullTableHasPin(pins: seq<Option<int>>, allowed: set<int>, pin: int)
    requires Table(pins) && |pins| == |allowed| && pin in allowed
    requires forall c | 0 <= c < |pins| :: pins[c].Some? && pins[c].value in allowed
    ensures Some(pin) in pins
  {
    UsedCount(pins);
    forall p | p in Used(pins) ensures p in allowed {
      assert Some(p) in pins;
    }
    SubsetOfSameSize(Used(pins), allowed);
  }

  lemma SixAllowed()
    ensures |ALLOWED| == CHANNELS
  {
  }

  lemma TableHasChannel(pins: seq<Option<int>>, pin: int)
    requires |pins| == CHANNELS && Table(pins) && pin in ALLOWED
    ensures ChannelOrFree(pins, pin).Some?
  {
    if FindFrom(pins, None, 0).None? {
      SixAllowed();
      FullTableHasPin(pins, ALLOWED, pin);
    }
  }

  /** A step that does not give `pin` another duty or stop it. */
  predicate Leaves(pin: int, step: Step)
    requires Possible(step)
  {
    step.stack[0] == pin ==> step.op != 1 && step.op != 2 && step.op != 3
  }

  lemma StepLeaves(s: PwmState, c: nat, pin: int, step: Step)
    requires Inv(s) && c < CHANNELS && s.pins[c] == Some(pin) && Possible(step) && Leaves(pin, step)
    ensures Apply(s, step).pins[c] == Some(pin) && Apply(s, step).duty[c] == s.duty[c]
  {
  }

  lemma {:induction false} RunLeaves(s: PwmState, c: nat, pin: int, steps: seq<Step>)
    requires Inv(s) && c < CHANNELS && s.pins[c] == Some(pin)
    requires forall step | step in steps :: Possible(step) && Leaves(pin, step)
    ensures Run(s, steps).pins[c] == Some(pin) && Run(s, steps).duty[c] == s.duty[c] && Inv(Run(s, steps))
  {
    if steps != [] {
      var init := steps[..|steps| - 1];
      RunLeaves(s, c, pin, init);
      StepLeaves(Run(s, init), c, pin, steps[|steps| - 1]);
      StepKeeps(Run(s, init), steps[|steps| - 1]);
    }
  }

  /**
   A duty of `value` parts in `max` is programmed exactly as if it had been cut to the timer's
   resolution at once, right away and after any calls that set other pins up, retune the timer they
   all share, or set other duties.
   */
  lemma FractionIsExact(s: PwmState, c: nat, pin: int, value: int, max: int, steps: seq<Step>)
    requires Inv(s) && Channel(s.pins, pin) == Some(c) && value >= 0 && max > 0
    requires forall step | step in steps :: Possible(step) && Leaves(pin, step)
    ensures var t := Run(SetDuty(s, pin, true, value, max).0, steps);
      t.pins[c] == Some(pin) && t.programmed[c] == Min(value, max) * Pow2(t.bits) / max
  {
    SetDutyKeeps(s, pin, true, value, max);
    var set' := SetDuty(s, pin, true, value, max).0;
    RunLeaves(set', c, pin, steps);
    TruncatingTwice(Min(value, max), max, Run(set', steps).bits);
  }

  /** A duty in microseconds is the fraction of the period it was set at, as exactly. */
  lemma PulseIsExact(s: PwmState, c: nat, pin: int, value: int, steps: seq<Step>)
    requires Inv(s) && Channel(s.pins, pin) == Some(c) && value >= 0
    requires forall step | step in steps :: Possible(step) && Leaves(pin, step)
    ensures var t := Run(SetDuty(s, pin, false, value, 0).0, steps);
      t.pins[c] == Some(pin)
      && t.programmed[c] == Min(value * s.frequency, 1_000_000) * Pow2(t.bits) / 1_000_000
  {
    SetDutyKeeps(s, pin, false, value, 0);
    var set' := SetDuty(s, pin, false, value, 0).0;
    RunLeaves(set', c, pin, steps);
    PulseIsFraction(value, s.frequency);
    TruncatingTwice(Min(value * s.frequency, 1_000_000), 1_000_000, Run(set', steps).bits);
  }

  /**
   A retuned timer runs at the highest resolution, up to 14 bits, that it accepts of those whose
   period its clock can count; and only fails when it accepts none of them.
   */
  lemma HighestResolution(s: PwmState, frequency: nat, ledc: Ledc, b: nat)
    requires Inv(s) && frequency > 0 && 1 <= b <= MAX_BITS && Pow2(b) * frequency <= TIMER_CLOCK && ledc.accepts(b)
    requires ledc.reached > 0
    ensures var (t, reached) := SetFrequency(s, frequency, ledc);
      reached == ledc.reached == t.frequency && b <= t.bits <= MAX_BITS
      && Pow2(t.bits) * frequency <= TIMER_CLOCK && ledc.accepts(t.bits)
  {
    TopBitsMeaning(frequency, b);
    var chosen := ChooseBits(TopBits(frequency), ledc.accepts).value;
    TopBitsMeaning(frequency, chosen);
  }

  /** A pin's channel is the one entry of the table that holds it. */
  lemma OwnChannel(pins: seq<Option<int>>, c: nat, pin: int)
    requires Table(pins) && c < |pins| && pins[c] == Some(pin)
    ensures Channel(pins, pin) == Some(c)
  {
    assert Channel(pins, pin).Some?;
  }

  /**
   Setting a pin up: a positive result means the pin has its channel, a new one with no duty, and is
   the frequency reached, cut to what the stack holds; without one, no pin is added.
   */
  lemma SetupMeaning(s: PwmState, pin: int, frequency: int, ledc: Ledc)
    requires Inv(s) && pin in ALLOWED
    ensures var (t, result, error) := Setup(s, pin, frequency, ledc);
      && (result > 0 ==>
            && Channel(t.pins, pin).Some? && result == Min(ledc.reached, ATOM_MAX) && error == NoError
            && (Channel(s.pins, pin).None? ==> t.duty[Channel(t.pins, pin).value] == 0))
      && (result <= 0 ==> result == 0 && t.pins == s.pins)
      && (error != NoError <==> frequency <= 0)
  {
    TableHasChannel(s.pins, pin);
    SetupKeeps(s, pin, frequency, ledc);
    if frequency > 0 {
      var t := Setup(s, pin, frequency, ledc).0;
      var c := ChannelOrFree(s.pins, pin).value;
      if t.pins[c] == Some(pin) { OwnChannel(t.pins, c, pin); }
    }
  }

  /** A stopped pin is free again, and every other pin keeps its channel and duty. */
  lemma StopFrees(s: PwmState, pin: int)
    requires Inv(s)
    ensures var (t, error) := Stop(s, pin);
      && Channel(t.pins, pin).None? && (error == NoError <==> Channel(s.pins, pin).Some?)
      && t.duty == s.duty && forall c | 0 <= c < CHANNELS :: s.pins[c] != Some(pin) ==> t.pins[c] == s.pins[c]
  {
    var t := Stop(s, pin).0;
    if Channel(s.pins, pin).Some? {
      var c := Channel(s.pins, pin).value;
      forall e | 0 <= e < CHANNELS ensures t.pins[e] != Some(pin) {
        if e < c { assert s.pins[e] != s.pins[c]; } else if c < e { assert s.pins[c] != s.pins[e]; }
      }
    }
  }

  // ---------------------------------------------------------------- from the program's stack

  /** What is left of a run of calls that does not give the pin another duty. */
  ghost predicate Undisturbed(pin: int, steps: seq<Step>) {
    forall step | step in steps :: Possible(step) && Leaves(pin, step)
  }

  /**
   The program pushes the largest value, the value and the pin, in this order: the fraction is exact,
   now and after later calls, and the operands are taken off the stack.
   */
  lemma FractionCall(s: PwmState, c: nat, pin: int, value: int, max: int, rest: seq<int>, ledc: Ledc, steps: seq<Step>)
    requires Inv(s) && pin in ALLOWED && Channel(s.pins, pin) == Some(c) && value >= 0 && max > 0
    requires Undisturbed(pin, steps)
    ensures var (t, stack, error) := Call(s, [pin, value, max] + rest, 1, ledc);
      && stack == rest && error == NoError
      && Run(t, steps).pins[c] == Some(pin)
      && Run(t, steps).programmed[c] == Min(value, max) * Pow2(Run(t, steps).bits) / max
  {
    assert ([pin, value, max] + rest)[3..] == rest;
    FractionIsExact(s, c, pin, value, max, steps);
  }

  /** The program pushes the microseconds and the pin. */
  lemma PulseCall(s: PwmState, c: nat, pin: int, value: int, rest: seq<int>, ledc: Ledc, steps: seq<Step>)
    requires Inv(s) && pin in ALLOWED && Channel(s.pins, pin) == Some(c) && value >= 0
    requires Undisturbed(pin, steps)
    ensures var (t, stack, error) := Call(s, [pin, value] + rest, 2, ledc);
      && stack == rest && error == NoError
      && Run(t, steps).pins[c] == Some(pin)
      && Run(t, steps).programmed[c] == Min(value * s.frequency, 1_000_000) * Pow2(Run(t, steps).bits) / 1_000_000
  {
    assert ([pin, value] + rest)[2..] == rest;
    PulseIsExact(s, c, pin, value, steps);
  }

  /**
   The program pushes the frequency and the pin, and finds the frequency reached, or 0, in their
   place; the pin has a channel then, with the duty it had, programmed at the timer's resolution.
   */
  lemma SetupCall(s: PwmState, pin: int, frequency: int, rest: seq<int>, ledc: Ledc)
    requires Inv(s) && pin in ALLOWED && frequency > 0 && ledc.reached > 0 && ledc.configOk
    requires ChooseBits(TopBits(frequency), ledc.accepts).Some?
    ensures var (t, stack, error) := Call(s, [pin, frequency] + rest, 0, ledc);
      && stack == [Min(ledc.reached, ATOM_MAX)] + rest && error == NoError && t.frequency == ledc.reached
      && Channel(t.pins, pin).Some?
      && var c := Channel(t.pins, pin).value;
         && t.duty[c] == (if Channel(s.pins, pin).Some? then s.duty[Channel(s.pins, pin).value] else 0)
         && t.programmed[c] == Count(t.duty[c], t.bits)
         && forall e | 0 <= e < CHANNELS && e != c :: t.pins[e] == s.pins[e] && t.duty[e] == s.duty[e]
  {
    assert ([pin, frequency] + rest)[2..] == rest;
    TableHasChannel(s.pins, pin);
    SetupKeeps(s, pin, frequency, ledc);
    var t := Setup(s, pin, frequency, ledc).0;
    OwnChannel(t.pins, ChannelOrFree(s.pins, pin).value, pin);
  }

  /** The program pushes the pin alone to stop it. */
  lemma StopCall(s: PwmState, c: nat, pin: int, rest: seq<int>, ledc: Ledc)
    requires Inv(s) && pin in ALLOWED && Channel(s.pins, pin) == Some(c)
    ensures var (t, stack, error) := Call(s, [pin] + rest, 3, ledc);
      stack == rest && error == NoError && t == s.(pins := s.pins[c := None]) && Channel(t.pins, pin).None?
  {
    assert ([pin] + rest)[1..] == rest;
    StopFrees(s, pin);
  }

  /** Of a function that does not exist only the pin is taken. */
  lemma UnknownCall(s: PwmState, pin: int, rest: seq<int>, op: int, ledc: Ledc)
    requires Shaped(s) && !(0 <= op <= 3)
    ensures Call(s, [pin] + rest, op, ledc) == (s, rest, UnimplementedInterruptFunc)
  {
    assert ([pin] + rest)[1..] == rest;
  }

  /** Exactly when a call is refused, which then changes nothing: no pin loses its duty or channel. */
  lemma RefusedCall(s: PwmState, stack: seq<int>, op: int, ledc: Ledc)
    requires Inv(s) && |stack| >= 1 + Operands(op) && op != 0
    ensures var (t, left, error) := Call(s, stack, op, ledc); var pin := stack[0];
      && left == stack[1 + Operands(op)..]
      && (error == UnimplementedInterruptFunc <==> !(0 <= op <= 3))
      && (error == InterruptError <==>
            && 1 <= op <= 3
            && (pin !in ALLOWED || Channel(s.pins, pin).None?
                || (op != 3 && stack[1] < 0) || (op == 1 && stack[2] <= 0)))
      && (error != NoError ==> t == s)
  {
  }

  /** And a setup is refused for a pin that is not allowed or no frequency, and leaves a 0. */
  lemma RefusedSetup(s: PwmState, stack: seq<int>, ledc: Ledc)
    requires Inv(s) && |stack| >= 2
    ensures var (t, left, error) := Call(s, stack, 0, ledc);
      && (error == InterruptError <==> stack[0] !in ALLOWED || stack[1] <= 0)
      && (error != NoError ==> error == InterruptError && t == s && left == [0] + stack[2..])
  {
    if stack[0] in ALLOWED { SetupMeaning(s, stack[0], stack[1], ledc); }
  }
}
