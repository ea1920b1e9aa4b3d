/**
 The VM's wait clock (src/int_time.rs) and the part of each `nodem_task` frame (src/nodem.rs) that
 holds the VM, as a transition system over an abstract VM: what a program does in a frame is any
 sequence of timed interrupt calls, and a wait ends its frame.
 */
module VmClockModel {
  import opened Prelude

  /** Times and intervals in nanoseconds. */
  type Time = int

  const SECOND := 1_000_000_000
  const MILLISECOND := 1_000_000

  /** `VmClock`. */
  datatype Clock = Clock(started: Time, last: Time, deadline: Option<Time>, tick: nat)

  /** `interval`: `None` if either part is negative. */
  function Interval(seconds: int, milliseconds: int): Option<nat> {
    if seconds < 0 || milliseconds < 0 then None else Some(seconds * SECOND + milliseconds * MILLISECOND)
  }

  /** `restart`. */
  function Restart(now: Time): Clock {
    Clock(now, now, None, 0)
  }

  /** `start_tick`. */
  function StartTick(c: Clock, now: Time): Clock {
    if c.deadline.None? && c.tick != 0 then c.(deadline := Some(now + c.tick)) else c
  }

  /** `hold`. */
  function Hold(c: Clock, now: Time): (Clock, bool) {
    match c.deadline
    case Some(deadline) => if now < deadline then (c, true) else (c.(deadline := None), false)
    case None => (c, false)
  }

  /** The calls that use the clock. */
  datatype Op = WaitFor | WaitUntil | SetTick

  /** What a call does: what it pushes, whether it fails, whether it pauses the VM. */
  datatype Effect = Effect(pushed: seq<int>, error: bool, pauses: bool)

  /** One interrupt call at time `now`. */
  function Call(c: Clock, op: Op, seconds: int, milliseconds: int, now: Time): (Clock, Effect) {
    match Interval(seconds, milliseconds)
    case None => (c, Effect(if op == WaitUntil then [0] else [], true, false))
    case Some(interval) =>
      match op
      case WaitFor => (c.(deadline := Some(now + interval)), Effect([], false, true))
      case WaitUntil =>
        var deadline := c.last + interval;
        if deadline > now then (c.(last := deadline, deadline := Some(deadline)), Effect([1], false, true))
        else (c.(last := now), Effect([0], false, false))
      case SetTick => (c.(tick := interval), Effect([], false, false))
  }

  // ---------------------------------------------------------------- frames

  /** A call the program makes, and when. */
  datatype Timed = Timed(op: Op, seconds: int, milliseconds: int, now: Time)

  /** How the program leaves a frame that no wait ended: still running, halted, or failed. */
  datatype Vm = Running | Halted | Crashed

  /**
   History: when a `wait_until` last came too late, if one has since the program started, and the
   intervals waited for since.
   */
  datatype Rhythm = Rhythm(late: Option<Time>, waits: seq<nat>)

  /**
   The clock, the VM, whether its program has run at all yet, and the history: when instructions
   ran, and what `wait_until` was called for.
   */
  datatype Machine = Machine(clock: Clock, vm: Vm, unstarted: bool, ran: seq<Time>, rhythm: Rhythm)

  function Beat(r: Rhythm, c: Clock, k: Timed): Rhythm {
    var interval := Interval(k.seconds, k.milliseconds);
    if k.op != WaitUntil || interval.None? then r
    else if c.last + interval.value > k.now then Rhythm(r.late, r.waits + [interval.value])
    else Rhythm(Some(k.now), [])
  }

  /** The calls of one run, up to the first that pauses the VM. */
  function RunCalls(c: Clock, r: Rhythm, calls: seq<Timed>): (Clock, Rhythm, bool)
    decreases |calls|
  {
    if calls == [] then (c, r, false)
    else
      var k := calls[0];
      var (d, effect) := Call(c, k.op, k.seconds, k.milliseconds, k.now);
      if effect.pauses then (d, Beat(r, c, k), true) else RunCalls(d, Beat(r, c, k), calls[1..])
  }

  /** What a frame starts with: a program that has not run yet counts from now. */
  function Started(m: Machine, now: Time): Machine {
    if m.unstarted then m.(clock := Restart(now), rhythm := Rhythm(None, [])) else m
  }

  /** The rest of a frame in which the program may run, at `now` or later. */
  function RunProgram(m: Machine, now: Time, calls: seq<Timed>, leaves: Vm, end: Time): Machine {
    var (clock, rhythm, paused) := RunCalls(m.clock, m.rhythm, calls);
    var vm := if paused then Halted else leaves;
    Machine(if vm == Halted then StartTick(clock, end) else clock, vm, false, m.ran + [now], rhythm)
  }

  /** What a frame resumes the program with: a paused VM's wait is cleared once it is over. */
  function Resumed(m: Machine, now: Time): Machine {
    var m := Started(m, now);
    if m.vm == Halted then m.(clock := Hold(m.clock, now).0) else m
  }

  /** Whether a frame runs the program: it has not failed, and is not held. */
  predicate Runs(m: Machine, now: Time) {
    m.vm != Crashed && (m.vm == Halted ==> !Hold(Started(m, now).clock, now).1)
  }

  /**
   One frame: a paused VM may be held; otherwise the program runs, and one that halted by itself is
   held for its tick.
   */
  function Frame(m: Machine, now: Time, calls: seq<Timed>, leaves: Vm, end: Time): Machine {
    if Runs(m, now) then RunProgram(Resumed(m, now), now, calls, leaves, end) else Resumed(m, now)
  }

  /** A newly loaded or reset program, between frames. */
  function Load(m: Machine, vm: Vm): Machine {
    m.(vm := vm, unstarted := true)
  }
}
