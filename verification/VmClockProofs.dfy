/** What every run of frames and program loads keeps, and when a waiting program goes on. */
module VmClockProofs {
  import opened Prelude
  import opened VmClockModel

  datatype Step = FrameStep(now: Time, calls: seq<Timed>, leaves: Vm, end: Time) | LoadStep(vm: Vm)

  function Apply(m: Machine, step: Step): Machine {
    match step
    case FrameStep(now, calls, leaves, end) => Frame(m, now, calls, leaves, end)
    case LoadStep(vm) => Load(m, vm)
  }

  function Run(m: Machine, steps: seq<Step>): Machine {
    if steps == [] then m else Apply(Run(m, steps[..|steps| - 1]), steps[|steps| - 1])
  }

  predicate Initial(m: Machine) {
    && m.unstarted && m.clock.last == m.clock.started && m.clock.deadline.None?
    && m.ran == [] && m.rhythm == Rhythm(None, [])
  }

  function Sum(intervals: seq<nat>): nat {
    if intervals == [] then 0 else Sum(intervals[..|intervals| - 1]) + intervals[|intervals| - 1]
  }

  /** A pending wait means the VM is paused, unless another program was loaded over it. */
  predicate PausedWhilePending(m: Machine) {
    m.clock.deadline.Some? ==> m.vm == Halted || m.unstarted
  }

  /** What the intervals count from: the program's start, until a call comes too late; then that call. */
  function Base(c: Clock, r: Rhythm): Time {
    if r.late.Some? then r.late.value else c.started
  }

  /** When a wait for one more interval is due. */
  function Due(c: Clock, r: Rhythm, interval: nat): Time {
    Base(c, r) + Sum(r.waits + [interval])
  }

  /** The next interval counts from the base plus all intervals since. */
  predicate OnBeat(c: Clock, r: Rhythm) {
    c.last == Base(c, r) + Sum(r.waits)
  }

  predicate Inv(m: Machine) {
    PausedWhilePending(m) && OnBeat(m.clock, m.rhythm)
  }

  lemma CallKeepsBeat(c: Clock, r: Rhythm, k: Timed)
    requires OnBeat(c, r)
    ensures OnBeat(Call(c, k.op, k.seconds, k.milliseconds, k.now).0, Beat(r, c, k))
  {
    var interval := Interval(k.seconds, k.milliseconds);
    if interval.Some? {
      assert (r.waits + [interval.value])[..|r.waits|] == r.waits;
    }
  }

  lemma {:induction false} CallsKeepBeat(c: Clock, r: Rhythm, calls: seq<Timed>)
    requires OnBeat(c, r)
    ensures var t := RunCalls(c, r, calls); OnBeat(t.0, t.1)
    ensures c.deadline.None? && !RunCalls(c, r, calls).2 ==> RunCalls(c, r, calls).0.deadline.None?
    decreases |calls|
  {
    if calls != [] {
      var k := calls[0];
      CallKeepsBeat(c, r, k);
      var (d, effect) := Call(c, k.op, k.seconds, k.milliseconds, k.now);
      if !effect.pauses { CallsKeepBeat(d, Beat(r, c, k), calls[1..]); }
    }
  }

  lemma ProgramKeeps(m: Machine, now: Time, calls: seq<Timed>, leaves: Vm, end: Time)
    requires OnBeat(m.clock, m.rhythm) && m.clock.deadline.None?
    ensures Inv(RunProgram(m, now, calls, leaves, end))
  {
    CallsKeepBeat(m.clock, m.rhythm, calls);
  }

  /** A program that a frame runs is on beat and has no wait pending. */
  lemma ResumedKeeps(m: Machine, now: Time)
    requires Inv(m) && Runs(m, now)
    ensures var s := Resumed(m, now); OnBeat(s.clock, s.rhythm) && s.clock.deadline.None?
  {
  }

  lemma StepKeeps(m: Machine, step: Step)
    requires Inv(m)
    ensures Inv(Apply(m, step))
  {
    if step.FrameStep? && Runs(m, step.now) {
      ResumedKeeps(m, step.now);
      ProgramKeeps(Resumed(m, step.now), step.now, step.calls, step.leaves, step.end);
    }
  }

  lemma {:induction false} RunKeeps(m: Machine, steps: seq<Step>)
    requires Inv(m)
    ensures Inv(Run(m, steps))
  {
    if steps != [] {
      RunKeeps(m, steps[..|steps| - 1]);
      StepKeeps(Run(m, steps[..|steps| - 1]), steps[|steps| - 1]);
    }
  }

  lemma InitialInv(m: Machine)
    requires Initial(m)
    ensures Inv(m)
  {
  }

  /**
   In every run: while a wait is pending the VM is paused; a frame before its deadline runs nothing
   and keeps the wait, and the first frame at or after it goes on with the program.
   */
  lemma NothingRunsEarly(first: Machine, steps: seq<Step>, now: Time, calls: seq<Timed>, leaves: Vm, end: Time)
    requires Initial(first)
    ensures var m := Run(first, steps); var next := Frame(m, now, calls, leaves, end);
      m.clock.deadline.Some? && !m.unstarted ==>
        && m.vm == Halted
        && (now < m.clock.deadline.value ==> next == m)
        && (now >= m.clock.deadline.value ==> next.ran == m.ran + [now])
  {
    InitialInv(first);
    RunKeeps(first, steps);
  }

  /** Calls that do not pause the VM, and those after them. */
  lemma {:induction false} RunConcat(c: Clock, r: Rhythm, earlier: seq<Timed>, rest: seq<Timed>)
    requires !RunCalls(c, r, earlier).2
    ensures var (d, q, _) := RunCalls(c, r, earlier); RunCalls(c, r, earlier + rest) == RunCalls(d, q, rest)
    decreases |earlier|
  {
    if earlier == [] {
      assert earlier + rest == rest;
    } else {
      var k := earlier[0];
      RunConcat(Call(c, k.op, k.seconds, k.milliseconds, k.now).0, Beat(r, c, k), earlier[1..], rest);
      assert (earlier + rest)[1..] == earlier[1..] + rest;
    }
  }

  /** A `wait_until` in a state that is on beat. */
  lemma WaitUntilOnBeat(c: Clock, r: Rhythm, k: Timed, later: seq<Timed>)
    requires OnBeat(c, r) && k.op == WaitUntil && k.seconds >= 0 && k.milliseconds >= 0
    ensures var interval := Interval(k.seconds, k.milliseconds).value;
      var due := Due(c, r, interval);
      if due > k.now then
        && Call(c, k.op, k.seconds, k.milliseconds, k.now).1 == Effect([1], false, true)
        && RunCalls(c, r, [k] + later) ==
           (c.(last := due, deadline := Some(due)), Rhythm(r.late, r.waits + [interval]), true)
      else
        && Call(c, k.op, k.seconds, k.milliseconds, k.now).1 == Effect([0], false, false)
        && RunCalls(c, r, [k] + later) == RunCalls(c.(last := k.now), Rhythm(Some(k.now), []), later)
  {
    var interval := Interval(k.seconds, k.milliseconds).value;
    assert (r.waits + [interval])[..|r.waits|] == r.waits;
    assert ([k] + later)[0] == k && ([k] + later)[1..] == later;
  }

  /**
   In every run, for any `wait_until` that a frame makes, after any calls of that frame that did not
   pause the VM: if it is on time, the frame leaves the VM waiting exactly until the program's start (or
   the last late call) plus the sum of all intervals since, its own included, whenever the frames
   came; if it is late, it returns at once, and the calls after it count from now.
   */
  lemma WaitUntilKeepsPeriod(first: Machine, steps: seq<Step>, m: Machine, now: Time, earlier: seq<Timed>, k: Timed,
                             later: seq<Timed>, leaves: Vm, end: Time)
    requires Initial(first) && m == Run(first, steps) && Runs(m, now)
    requires k.op == WaitUntil && k.seconds >= 0 && k.milliseconds >= 0
    requires !RunCalls(Resumed(m, now).clock, Resumed(m, now).rhythm, earlier).2
    ensures var s := Resumed(m, now);
      var (c, r, _) := RunCalls(s.clock, s.rhythm, earlier);
      var due := Due(c, r, Interval(k.seconds, k.milliseconds).value);
      var next := Frame(m, now, earlier + ([k] + later), leaves, end);
      && c.started == s.clock.started && c.deadline.None?
      && if due > k.now then
           && Call(c, k.op, k.seconds, k.milliseconds, k.now).1.pushed == [1]
           && next.vm == Halted && next.clock.deadline == Some(due) && next.clock.last == due
         else
           && Call(c, k.op, k.seconds, k.milliseconds, k.now).1.pushed == [0]
           && RunCalls(s.clock, s.rhythm, earlier + ([k] + later)) ==
              RunCalls(c.(last := k.now), Rhythm(Some(k.now), []), later)
  {
    InitialInv(first);
    RunKeeps(first, steps);
    ResumedKeeps(m, now);
    var s := Resumed(m, now);
    CallsKeepBeat(s.clock, s.rhythm, earlier);
    CallsKeepStart(s.clock, s.rhythm, earlier);
    RunConcat(s.clock, s.rhythm, earlier, [k] + later);
    var (c, r, _) := RunCalls(s.clock, s.rhythm, earlier);
    WaitUntilOnBeat(c, r, k, later);
  }

  predicate AllAre(intervals: seq<nat>, interval: nat) {
    forall i | 0 <= i < |intervals| :: intervals[i] == interval
  }

  lemma {:induction false} SteadySum(intervals: seq<nat>, interval: nat)
    requires AllAre(intervals, interval)
    ensures Sum(intervals) == |intervals| * interval
  {
    if intervals != [] {
      SteadySum(intervals[..|intervals| - 1], interval);
      assert |intervals| * interval == (|intervals| - 1) * interval + interval;
    }
  }

  /** A loop that waits for one interval keeps its period: after k waits, exactly k periods from its base. */
  lemma SteadyPeriod(first: Machine, steps: seq<Step>, interval: nat)
    requires Initial(first) && AllAre(Run(first, steps).rhythm.waits, interval)
    ensures var m := Run(first, steps);
      m.clock.last == Base(m.clock, m.rhythm) + |m.rhythm.waits| * interval
  {
    InitialInv(first);
    RunKeeps(first, steps);
    SteadySum(Run(first, steps).rhythm.waits, interval);
  }

  /**
   A newly loaded program runs in the next frame and counts from it, whatever its predecessor waited
   for, and inherits no tick.
   */
  lemma LoadDropsWait(m: Machine, vm: Vm, now: Time, calls: seq<Timed>, leaves: Vm, end: Time)
    requires vm != Crashed
    ensures var next := Frame(Load(m, vm), now, calls, leaves, end);
      && next.ran == m.ran + [now] && next.clock.started == now
      && Resumed(Load(m, vm), now).clock.tick == 0 && Resumed(Load(m, vm), now).clock.deadline.None?
  {
    CallsKeepStart(Restart(now), Rhythm(None, []), calls);
  }

  lemma {:induction false} CallsKeepStart(c: Clock, r: Rhythm, calls: seq<Timed>)
    ensures RunCalls(c, r, calls).0.started == c.started
    decreases |calls|
  {
    if calls != [] {
      var k := calls[0];
      CallsKeepStart(Call(c, k.op, k.seconds, k.milliseconds, k.now).0, Beat(r, c, k), calls[1..]);
    }
  }

  /** A program's start is the first frame it is seen in, until another one is loaded. */
  lemma FrameKeepsStart(m: Machine, now: Time, calls: seq<Timed>, leaves: Vm, end: Time)
    ensures Frame(m, now, calls, leaves, end).clock.started == if m.unstarted then now else m.clock.started
  {
    CallsKeepStart(Resumed(m, now).clock, Resumed(m, now).rhythm, calls);
  }

  /** The tick last set by a valid `set_tick` among these calls, else the one before them. */
  function LastTick(tick: nat, calls: seq<Timed>): nat {
    if calls == [] then tick
    else
      var k := calls[|calls| - 1];
      var interval := Interval(k.seconds, k.milliseconds);
      if k.op == SetTick && interval.Some? then interval.value else LastTick(tick, calls[..|calls| - 1])
  }

  lemma {:induction false} CallsSetTick(c: Clock, r: Rhythm, calls: seq<Timed>)
    requires !RunCalls(c, r, calls).2
    ensures RunCalls(c, r, calls).0.tick == LastTick(c.tick, calls)
  {
    if calls != [] {
      var init, k := calls[..|calls| - 1], calls[|calls| - 1];
      assert calls == init + [k];
      PrefixDoesNotPause(c, r, init, [k]);
      RunConcat(c, r, init, [k]);
      CallsSetTick(c, r, init);
      var (d, q, _) := RunCalls(c, r, init);
      assert [k][0] == k && [k][1..] == [];
      assert RunCalls(d, q, [k]).0 == Call(d, k.op, k.seconds, k.milliseconds, k.now).0;
    }
  }

  lemma {:induction false} PrefixDoesNotPause(c: Clock, r: Rhythm, earlier: seq<Timed>, rest: seq<Timed>)
    requires !RunCalls(c, r, earlier + rest).2
    ensures !RunCalls(c, r, earlier).2
    decreases |earlier|
  {
    if earlier != [] {
      var k := earlier[0];
      assert (earlier + rest)[0] == k && (earlier + rest)[1..] == earlier[1..] + rest;
      PrefixDoesNotPause(Call(c, k.op, k.seconds, k.milliseconds, k.now).0, Beat(r, c, k), earlier[1..], rest);
    }
  }

  /**
   In every run, a program that halts by itself in a frame, without a wait, is held for the tick last
   set: a frame after that one runs it exactly if it comes at least one tick after that frame's end,
   so the next one does if no tick is set.
   */
  lemma HaltHoldsForTick(first: Machine, steps: seq<Step>, m: Machine, now: Time, calls: seq<Timed>, end: Time,
                         later: Time)
    requires Initial(first) && m == Run(first, steps) && Runs(m, now)
    requires !RunCalls(Resumed(m, now).clock, Resumed(m, now).rhythm, calls).2
    ensures var next := Frame(m, now, calls, Halted, end);
      var tick := LastTick(Resumed(m, now).clock.tick, calls);
      && next.vm == Halted && next.clock.tick == tick
      && next.clock.deadline == (if tick == 0 then None else Some(end + tick))
      && (Runs(next, later) <==> tick == 0 || later >= end + tick)
  {
    InitialInv(first);
    RunKeeps(first, steps);
    ResumedKeeps(m, now);
    var s := Resumed(m, now);
    CallsKeepBeat(s.clock, s.rhythm, calls);
    CallsSetTick(s.clock, s.rhythm, calls);
  }

  /** `wait_for` pauses the VM for its interval, counted from the call. */
  lemma WaitForDelays(c: Clock, r: Rhythm, seconds: int, milliseconds: int, now: Time, later: seq<Timed>)
    requires seconds >= 0 && milliseconds >= 0
    ensures var calls := [Timed(WaitFor, seconds, milliseconds, now)] + later;
      var (d, _, paused) := RunCalls(c, r, calls);
      paused && d.deadline == Some(now + seconds * SECOND + milliseconds * MILLISECOND) && d.last == c.last
  {
    var calls := [Timed(WaitFor, seconds, milliseconds, now)] + later;
    assert calls[0] == Timed(WaitFor, seconds, milliseconds, now);
  }

  /**
   Which calls pause the VM: a `wait_for`, and a `wait_until` that is on time; never one with a negative
   part, which fails and leaves the clock alone.
   */
  lemma PausingCalls(c: Clock, op: Op, seconds: int, milliseconds: int, now: Time)
    ensures var (d, effect) := Call(c, op, seconds, milliseconds, now);
      var negative := seconds < 0 || milliseconds < 0;
      var due := c.last + seconds * SECOND + milliseconds * MILLISECOND;
      && (effect.error <==> negative)
      && (effect.pauses <==>
            !negative && (op == WaitFor || (op == WaitUntil && due > now)))
      && (if effect.pauses then d.deadline.Some? && d.deadline.value >= now else d.deadline == c.deadline)
      && (negative ==> d == c)
      && |effect.pushed| == (if op == WaitUntil then 1 else 0)
      && (op == WaitUntil ==> effect.pushed == [if effect.pauses then 1 else 0])
  {
  }

  /** `set_tick` changes the tick and nothing else. */
  lemma SetTickOnlySetsTick(c: Clock, seconds: int, milliseconds: int, now: Time)
    requires seconds >= 0 && milliseconds >= 0
    ensures var (d, effect) := Call(c, SetTick, seconds, milliseconds, now);
      && d.tick == seconds * SECOND + milliseconds * MILLISECOND && d.(tick := c.tick) == c
      && effect == Effect([], false, false)
  {
  }
}
