/** The `VmClock` object of src/int_time.rs, and the time interrupt's calls on it. */
module VmClock {
  import opened Prelude
  import opened VmClockModel

  class VmClock {
    var started: Time
    var last: Time
    var deadline: Option<Time>
    var tick: nat

    ghost function Now(): Clock
      reads this
    {
      Clock(started, last, deadline, tick)
    }

    constructor (now: Time)
      ensures Now() == Restart(now)
    {
      started := now;
      last := now;
      deadline := None;
      tick := 0;
    }

    method RestartAt(now: Time)
      modifies this
      ensures Now() == Restart(now)
    {
      started := now;
      last := now;
      deadline := None;
      tick := 0;
    }

    method StartTickAt(now: Time)
      modifies this
      ensures Now() == StartTick(old(Now()), now)
    {
      if deadline.None? && tick != 0 { deadline := Some(now + tick); }
    }

    method HoldAt(now: Time) returns (hold: bool)
      modifies this
      ensures (Now(), hold) == Hold(old(Now()), now)
    {
      if deadline.None? { return false; }
      if now < deadline.value { return true; }
      deadline := None;
      hold := false;
    }

    /** The clock's branches of `Time::call`. */
    method CallOp(op: Op, seconds: int, milliseconds: int, now: Time) returns (effect: Effect)
      modifies this
      ensures (Now(), effect) == Call(old(Now()), op, seconds, milliseconds, now)
    {
      var interval := Interval(seconds, milliseconds);
      if interval.None? { return Effect(if op == WaitUntil then [0] else [], true, false); }
      match op {
        case WaitFor =>
          deadline := Some(now + interval.value);
          effect := Effect([], false, true);
        case WaitUntil =>
          var until := last + interval.value;
          var waited := until > now;
          last := if waited then until else now;
          if !waited { return Effect([0], false, false); }
          deadline := Some(until);
          effect := Effect([1], false, true);
        case SetTick =>
          tick := interval.value;
          effect := Effect([], false, false);
      }
    }
  }

  /** The VM as `nodem_task` drives it, once a frame. */
  class NodemTask {
    const clock: VmClock
    var vm: Vm
    /** The program has not run a cycle yet. */
    var unstarted: bool
    ghost var ran: seq<Time>
    ghost var rhythm: Rhythm

    ghost function Now(): Machine
      reads this, clock
    {
      Machine(clock.Now(), vm, unstarted, ran, rhythm)
    }

    constructor (clock: VmClock, vm: Vm)
      ensures this.clock == clock && Now() == Machine(clock.Now(), vm, true, [], Rhythm(None, []))
    {
      this.clock := clock;
      this.vm := vm;
      unstarted := true;
      ran := [];
      rhythm := Rhythm(None, []);
    }

    /** The program's calls of one frame, until one pauses the VM. */
    method MakeCalls(calls: seq<Timed>) returns (paused: bool)
      modifies clock, `rhythm
      ensures (clock.Now(), rhythm, paused) == RunCalls(old(clock.Now()), old(rhythm), calls)
    {
      var i := 0;
      while i < |calls|
        invariant 0 <= i <= |calls|
        invariant RunCalls(old(clock.Now()), old(rhythm), calls) == RunCalls(clock.Now(), rhythm, calls[i..])
      {
        var k := calls[i];
        assert calls[i..][0] == k && calls[i..][1..] == calls[i + 1..];
        rhythm := Beat(rhythm, clock.Now(), k);
        var effect := clock.CallOp(k.op, k.seconds, k.milliseconds, k.now);
        if effect.pauses { return true; }
        i := i + 1;
      }
      assert calls[i..] == [];
      paused := false;
    }

    /** `Env::run`: a VM in the error state runs nothing; a paused one is resumed. */
    method RunVm(now: Time, calls: seq<Timed>, leaves: Vm)
      modifies this, clock
      ensures old(vm) == Crashed ==> Now() == old(Now())
      ensures old(vm) != Crashed ==>
        var (c, r, paused) := RunCalls(old(clock.Now()), old(rhythm), calls);
        Now() == Machine(c, if paused then Halted else leaves, false, old(ran) + [now], r)
    {
      if vm == Crashed { return; }
      unstarted := false;
      ran := ran + [now];
      var paused := MakeCalls(calls);
      vm := if paused then Halted else leaves;
    }

    /**
     The VM's part of a frame of `nodem_task`. A VM that is held is parked in the error state while
     the rest of the runtime runs, so that nothing resumes it.
     */
    method RunFrame(now: Time, calls: seq<Timed>, leaves: Vm, end: Time)
      modifies this, clock
      ensures Now() == Frame(old(Now()), now, calls, leaves, end)
    {
      if unstarted {
        clock.RestartAt(now);
        rhythm := Rhythm(None, []);
      }
      var held := false;
      if vm == Halted { held := clock.HoldAt(now); }
      if held { vm := Crashed; }
      RunVm(now, calls, leaves);
      if held {
        vm := Halted;
      } else if vm == Halted {
        clock.StartTickAt(end);
      }
    }
  }
}
