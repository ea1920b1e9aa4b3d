/** The `Pwm` object of src/int_pwm.rs: its channel table, duties and timer, and the VM calls on it. */
module Pwm {
  import opened Prelude
  import opened Bits
  import opened PwmModel

  /** The part of the VM that a call uses: its stack, top first, and its error. */
  class Vm {
    var stack: seq<int>
    var error: Error

    constructor (stack: seq<int>)
      ensures this.stack == stack && error == NoError
    {
      this.stack := stack;
      error := NoError;
    }

    method Pop() returns (value: int)
      requires stack != []
      modifies `stack
      ensures value == old(stack)[0] && stack == old(stack)[1..]
    {
      value := stack[0];
      stack := stack[1..];
    }

    method Push(value: int)
      modifies `stack
      ensures stack == [value] + old(stack)
    {
      stack := [value] + stack;
    }
  }

  class Pwm {
    /** The pin of each LEDC channel in use. */
    const pins: array<Option<int>>
    /** The duty of each channel as a fraction of FULL. */
    const duty: array<nat>
    var frequency: nat
    var bits: nat
    /** The count each channel of the peripheral was last given. */
    var programmed: seq<nat>

    ghost predicate Valid()
      reads this
    {
      pins.Length == CHANNELS && duty.Length == CHANNELS && |programmed| == CHANNELS
    }

    ghost function Now(): (s: PwmState)
      requires Valid()
      reads this, pins, duty
      ensures Shaped(s)
    {
      PwmState(pins[..], duty[..], frequency, bits, programmed)
    }

    constructor ()
      ensures Valid() && fresh(pins) && fresh(duty)
      ensures Now() == PwmState(seq(CHANNELS, _ => None), seq(CHANNELS, _ => 0), 0, 0, seq(CHANNELS, _ => 0))
    {
      pins := new Option<int>[CHANNELS](_ => None);
      duty := new nat[CHANNELS](_ => 0);
      frequency := 0;
      bits := 0;
      programmed := seq(CHANNELS, _ => 0);
      new;
      assert pins[..] == seq(CHANNELS, _ => None);
      assert duty[..] == seq(CHANNELS, _ => 0);
    }

    /** `iter().position`: the first entry equal to `entry`. */
    method Position(entry: Option<int>) returns (c: Option<nat>)
      requires Valid()
      ensures c == FindFrom(pins[..], entry, 0)
    {
      var i := 0;
      while i < CHANNELS
        invariant 0 <= i <= CHANNELS && FindFrom(pins[..], entry, 0) == FindFrom(pins[..], entry, i)
      {
        if pins[i] == entry { return Some(i); }
        i := i + 1;
      }
      c := None;
    }

    method Apply(channel: nat)
      requires Valid() && channel < CHANNELS
      modifies `programmed
      ensures Valid() && programmed == old(programmed)[channel := Count(duty[channel], bits)]
    {
      programmed := programmed[channel := duty[channel] * Pow2(bits) / FULL];
    }

    /** The end of `set_frequency`: every channel in use is given its duty again. */
    method ApplyAll()
      requires Valid()
      modifies `programmed
      ensures Valid() && programmed == old(Reapplied(Now(), bits))
    {
      ghost var goal := Reapplied(Now(), bits);
      ghost var before := programmed;
      for channel := 0 to CHANNELS
        invariant Valid()
        invariant forall c | 0 <= c < CHANNELS :: programmed[c] == if c < channel then goal[c] else before[c]
      {
        if pins[channel].Some? { Apply(channel); }
      }
      assert programmed == goal;
    }

    method SetFrequencyOf(frequency: nat, ledc: Ledc) returns (reached: nat)
      requires Valid() && frequency > 0
      modifies `bits, `frequency, `programmed
      ensures Valid() && (Now(), reached) == SetFrequency(old(Now()), frequency, ledc)
    {
      var tried := TopBits(frequency);
      while tried >= 1
        invariant ChooseBits(TopBits(frequency), ledc.accepts) == ChooseBits(tried, ledc.accepts)
      {
        if ledc.accepts(tried) {
          bits := tried;
          this.frequency := ledc.reached;
          ApplyAll();
          return this.frequency;
        }
        tried := tried - 1;
      }
      reached := 0;
    }

    /** Setting a pin up. */
    method SetupPin(vm: Vm, pin: int, ledc: Ledc)
      requires Valid() && vm.stack != []
      modifies this, pins, duty, vm
      ensures Valid()
      ensures (Now(), vm.stack, vm.error) ==
        var r := Setup(old(Now()), pin, old(vm.stack)[0], ledc);
        (r.0, [r.1] + old(vm.stack)[1..], if r.2 == NoError then old(vm.error) else r.2)
    {
      var wanted := vm.Pop();
      if wanted <= 0 {
        vm.Push(0);
        vm.error := InterruptError;
        return;
      }
      var reached := SetFrequencyOf(wanted, ledc);
      if reached == 0 {
        vm.Push(0);
        return;
      }
      var channel := Position(Some(pin));
      if channel.None? { channel := Position(None); }
      if channel.None? {
        vm.Push(0);
        vm.error := InterruptError;
        return;
      }
      var result := Configure(channel.value, pin, reached, ledc.configOk);
      vm.Push(result);
    }

    /** The end of setting a pin up: its channel is configured, a free one with no duty yet. */
    method Configure(c: nat, pin: int, reached: nat, configOk: bool) returns (result: int)
      requires Valid() && c < CHANNELS
      modifies `programmed, pins, duty
      ensures Valid() && (Now(), result) == Configured(old(Now()), c, pin, reached, configOk)
    {
      if pins[c].None? { duty[c] := 0; }
      var count := duty[c] * Pow2(bits) / FULL;
      if !configOk { return 0; }
      programmed := programmed[c := count];
      pins[c] := Some(pin);
      result := if reached < ATOM_MAX then reached else ATOM_MAX;
    }

    /** Giving a pin a duty. */
    method SetPinDuty(vm: Vm, pin: int, op: int)
      requires Valid() && 1 <= op <= 2 && |vm.stack| >= Operands(op)
      modifies this, duty, vm
      ensures Valid() && vm.stack == old(vm.stack)[Operands(op)..]
      ensures (Now(), vm.error) ==
        var r := SetDuty(old(Now()), pin, op == 1, old(vm.stack)[0], if op == 1 then old(vm.stack)[1] else 0);
        (r.0, if r.1 == NoError then old(vm.error) else r.1)
    {
      var value := vm.Pop();
      var max := 0;
      if op == 1 { max := vm.Pop(); }
      var channel := Position(Some(pin));
      if channel.None? || !(value >= 0 && (op == 2 || max > 0)) {
        vm.error := InterruptError;
        return;
      }
      var c := channel.value;
      if op == 1 {
        duty[c] := Min(value, max) * FULL / max;
      } else {
        duty[c] := Min(value * frequency * FULL / 1_000_000, FULL);
      }
      Apply(c);
    }

    /** A call for a pin that is not allowed, or of an unknown function. */
    static method Refuse(vm: Vm, op: int)
      requires |vm.stack| >= Operands(op)
      modifies vm
      ensures vm.stack == var rest := old(vm.stack)[Operands(op)..]; if op == 0 then [0] + rest else rest
      ensures vm.error == if 0 <= op <= 3 then InterruptError else UnimplementedInterruptFunc
    {
      if 0 <= op <= 3 {
        var operands := Operands(op);
        for i := 0 to operands
          invariant vm.stack == old(vm.stack)[i..]
        {
          var _ := vm.Pop();
        }
      }
      if op == 0 { vm.Push(0); }
      vm.error := if 0 <= op <= 3 then InterruptError else UnimplementedInterruptFunc;
    }

    /**
     `call`: what it leaves on the stack, in every branch, is its one result or nothing, on top of
     what was under its operands.
     */
    method CallOp(vm: Vm, op: int, ledc: Ledc)
      requires Valid() && |vm.stack| >= 1 + Operands(op)
      modifies this, pins, duty, vm
      ensures Valid()
      ensures (Now(), vm.stack, vm.error) ==
        var r := Call(old(Now()), old(vm.stack), op, ledc); (r.0, r.1, if r.2 == NoError then old(vm.error) else r.2)
      ensures |vm.stack| == old(|vm.stack|) - 1 - Operands(op) + if op == 0 then 1 else 0
    {
      var pin := vm.Pop();
      if pin !in ALLOWED || !(0 <= op <= 3) {
        Refuse(vm, op);
        assert old(vm.stack)[1..][Operands(op)..] == old(vm.stack)[1 + Operands(op)..];
        return;
      }
      if op == 0 {
        SetupPin(vm, pin, ledc);
      } else if op == 3 {
        StopPin(vm, pin);
      } else {
        SetPinDuty(vm, pin, op);
      }
    }

    /** Stopping a pin. */
    method StopPin(vm: Vm, pin: int)
      requires Valid()
      modifies pins, vm`error
      ensures Valid()
      ensures (Now(), vm.error) == var r := Stop(old(Now()), pin); (r.0, if r.1 == NoError then old(vm.error) else r.1)
    {
      var channel := Position(Some(pin));
      if channel.None? {
        vm.error := InterruptError;
        return;
      }
      pins[channel.value] := None;
    }
  }
}
