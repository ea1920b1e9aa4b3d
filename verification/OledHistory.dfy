/**
 What a run of the display task has been through (`run_display` in src/oled.rs): which outcome the
 first init had, how the attempts of a frame went, and what went over the bus last.
 */
module OledHistory {
  import opened Prelude
  import opened OledProtocol
  import opened OledProtocolProofs

  /** The first init is still to come, or under way. */
  predicate FirstInitPending(pc: Pc) {
    pc == Init(true) || (pc.Sending? && pc.what.FirstInit?)
  }

  /** `initialized` is the first init's outcome, and a display that never came up is left alone. */
  ghost predicate CameUp<Frame>(d: Display<Frame>, s: State<Frame>) {
    && (s.past.up.None? <==> FirstInitPending(s.task.pc))
    && (s.past.up.Some? ==> s.task.initialized == s.past.up.value)
    && (s.past.up == Some(false) ==>
          (s.task.pc.Top? || s.task.pc.Idle? || s.task.pc.Gone?) && s.past.written == Some(d.initBytes))
  }

  /** A write that is over is the last one that went over the bus; a display that came up ends with the off bytes. */
  ghost predicate OverTheBus<Frame>(d: Display<Frame>, s: State<Frame>) {
    && (s.i2c.worker.Written? ==> s.past.written == Some(s.i2c.worker.buf))
    && (s.i2c.done.Some? ==> s.past.written == Some(s.i2c.done.value.0))
    && (s.task.pc.Gone? && s.past.up == Some(true) ==> s.past.written == Some(d.offBytes))
  }

  /** Each attempt but the current one has failed; a reinit follows the last of them. */
  predicate Attempts<Frame>(s: State<Frame>) {
    var pc := s.task.pc;
    && (pc.Flushing? || pc.Awaiting? ==> s.task.attempt == s.past.failures + 1)
    && (pc.Retry? ==> s.task.attempt == s.past.failures)
    && (pc == Init(false) || (pc.Sending? && pc.what.Reinit?) ==> s.past.failures == MAX_ATTEMPTS)
  }

  ghost predicate Recorded<Frame>(d: Display<Frame>, s: State<Frame>) {
    CameUp(d, s) && OverTheBus(d, s) && Attempts(s)
  }

  // ---------------------------------------------------------------- every step keeps it

  lemma InitialRecorded<Frame(!new)>(d: Display<Frame>, s: State<Frame>)
    requires Initial(d, s)
    ensures Recorded(d, s)
  {
  }

  lemma OtherStepRecorded<Frame(!new)>(d: Display<Frame>, s: State<Frame>, step: Step<Frame>)
    requires Inv(d, s) && Recorded(d, s) && !step.Exec? && Apply(d, s, step).Some?
    ensures Recorded(d, Apply(d, s, step).value)
  {
  }

  lemma CommandRecorded<Frame(!new)>(d: Display<Frame>, s: State<Frame>, buf: Bytes, ok: bool)
    requires Inv(d, s) && Disciplined(s) && Recorded(d, s) && s.task.pc.Sending? && s.i2c.done == Some((buf, ok))
    ensures Recorded(d, AfterCommand(TakeBack(s, buf), s.task.pc.what, ok))
  {
    TakenBack(d, s);
  }

  lemma PageRecorded<Frame(!new)>(d: Display<Frame>, s: State<Frame>, buf: Bytes, ok: bool)
    requires Inv(d, s) && Recorded(d, s) && s.task.pc.Awaiting? && s.i2c.done == Some((buf, ok))
    ensures Recorded(d, AfterPage(d, TakeBack(s, buf), s.task.pc.page, s.task.pc.prev, s.task.pc.last, ok))
  {
    TakenBack(d, s);
  }

  lemma SubmitRecorded<Frame>(d: Display<Frame>, s: State<Frame>, page: nat)
    requires page < |s.oled.sent| && s.oled.spare.Some? && Recorded(d, s) && s.task.pc.Flushing?
    ensures Recorded(d, SubmitPage(d, s, page))
  {
  }

  lemma FlushRecorded<Frame>(d: Display<Frame>, s: State<Frame>, page: nat, out: Option<nat>)
    requires d.pages <= |s.oled.sent| && Buffers(s) && Recorded(d, s) && s.task.pc == Flushing(page, out)
    ensures Recorded(d, FlushStep(d, s, page, out))
  {
    var buf := Segment(d, s.frame, page);
    if page < d.pages && s.oled.sent[page] != Some(d.hash(buf)) && out.None? {
      SubmitRecorded(d, Prepared(s, buf), page);
    }
  }

  lemma HeadRecorded<Frame(!new)>(d: Display<Frame>, s: State<Frame>)
    requires Inv(d, s) && Disciplined(s) && Recorded(d, s)
    ensures s.task.pc.Top? ==> Recorded(d, LoopHead(s))
    ensures s.task.pc.Retry? ==> Recorded(d, AfterFailure(s))
  {
  }

  lemma StartRecorded<Frame>(d: Display<Frame>, s: State<Frame>)
    requires Buffers(s) && Recorded(d, s)
    ensures s.task.pc.Init? ==> Recorded(d, StartInit(d, s, s.task.pc.first))
    ensures s.task.pc.Off? ==> Recorded(d, StartOff(d, s))
  {
  }

  lemma ParkRecorded<Frame>(d: Display<Frame>, s: State<Frame>)
    requires Recorded(d, s)
    ensures s.task.pc.Sending? ==> Recorded(d, Park(s, Sending(s.task.pc.what, true)))
    ensures s.task.pc.Awaiting? ==>
      Recorded(d, Park(s, Awaiting(s.task.pc.page, s.task.pc.prev, s.task.pc.last, true)))
  {
  }

  lemma ExecRecorded<Frame(!new)>(d: Display<Frame>, s: State<Frame>)
    requires Inv(d, s) && Disciplined(s) && Recorded(d, s) && ExecStep(d, s).Some?
    ensures Recorded(d, ExecStep(d, s).value)
  {
    StartRecorded(d, s);
    ParkRecorded(d, s);
    match s.task.pc
    case Top => HeadRecorded(d, s);
    case Retry => HeadRecorded(d, s);
    case Flushing(page, out) => FlushRecorded(d, s, page, out);
    case Awaiting(_, _, _, _) =>
      if s.i2c.done.Some? { PageRecorded(d, s, s.i2c.done.value.0, s.i2c.done.value.1); }
    case Sending(_, _) =>
      if s.i2c.done.Some? { CommandRecorded(d, s, s.i2c.done.value.0, s.i2c.done.value.1); }
    case _ =>
  }

  /** A state that a run can be in, with its history. */
  ghost predicate Lived<Frame(!new)>(d: Display<Frame>, s: State<Frame>) {
    Inv(d, s) && Disciplined(s) && Recorded(d, s)
  }

  lemma StepLived<Frame(!new)>(d: Display<Frame>, s: State<Frame>, step: Step<Frame>)
    requires Lived(d, s) && Apply(d, s, step).Some?
    ensures Lived(d, Apply(d, s, step).value)
  {
    StepKeeps(d, s, step);
    if step.Exec? {
      ExecDisciplined(d, s);
      ExecRecorded(d, s);
    } else {
      OtherStepRecorded(d, s, step);
    }
  }

  lemma {:induction false} RunLived<Frame(!new)>(
      d: Display<Frame>, s: State<Frame>, steps: seq<Step<Frame>>, t: State<Frame>)
    requires Lived(d, s) && Run(d, s, steps) == Some(t)
    ensures Lived(d, t)
    decreases |steps|
  {
    if steps != [] {
      StepLived(d, s, steps[0]);
      RunLived(d, Apply(d, s, steps[0]).value, steps[1..], t);
    }
  }

  lemma ReachableLived<Frame(!new)>(d: Display<Frame>, t: State<Frame>)
    requires WellFormed(d) && Reachable(d, t)
    ensures Lived(d, t)
  {
    var s: State<Frame>, steps: seq<Step<Frame>> :| Initial(d, s) && Run(d, s, steps) == Some(t);
    InitialInv(d, s);
    InitialRecorded(d, s);
    RunLived(d, s, steps, t);
  }

  // ---------------------------------------------------------------- what follows for every run

  /**
   `run_display` leaves the worker as a next one expects it: idle, without a stale waker. The panel
   was switched off last, exactly if its first init succeeded.
   */
  lemma LeavesWorkerIdle<Frame(!new)>(d: Display<Frame>, s: State<Frame>)
    requires WellFormed(d) && Reachable(d, s) && s.task.pc == Gone
    ensures s.i2c.jobs == [] && s.i2c.worker == Resting && s.i2c.done == None && !s.i2c.waker
    ensures s.past.written == Some(d.offBytes) <==> s.past.up == Some(true)
  {
    ReachableLived(d, s);
  }

  /** Only the first init decides whether the display is used, once and for all: a failed reinit does not. */
  lemma FirstInitDecides<Frame(!new)>(d: Display<Frame>, s: State<Frame>, steps: seq<Step<Frame>>, t: State<Frame>)
    requires WellFormed(d) && Reachable(d, s) && s.past.up.Some? && Run(d, s, steps) == Some(t)
    ensures s.task.initialized == t.task.initialized == s.past.up.value
  {
    ReachableLived(d, s);
    RunLived(d, s, steps, t);
    OutcomeStays(d, s, steps, t);
  }

  lemma {:induction false} OutcomeStays<Frame(!new)>(
      d: Display<Frame>, s: State<Frame>, steps: seq<Step<Frame>>, t: State<Frame>)
    requires Lived(d, s) && s.past.up.Some? && Run(d, s, steps) == Some(t)
    ensures t.past.up == s.past.up
    decreases |steps|
  {
    if steps != [] {
      StepLived(d, s, steps[0]);
      OutcomeStaysOnce(d, s, steps[0]);
      OutcomeStays(d, Apply(d, s, steps[0]).value, steps[1..], t);
    }
  }

  lemma OutcomeStaysOnce<Frame>(d: Display<Frame>, s: State<Frame>, step: Step<Frame>)
    requires !FirstInitPending(s.task.pc) && Apply(d, s, step).Some?
    ensures Apply(d, s, step).value.past.up == s.past.up
  {
    if step.Exec? {
      match s.task.pc
      case Flushing(page, out) => FlushKeepsOutcome(d, s, page, out);
      case _ =>
    }
  }

  lemma FlushKeepsOutcome<Frame>(d: Display<Frame>, s: State<Frame>, page: nat, out: Option<nat>)
    requires d.pages <= |s.oled.sent|
    ensures FlushStep(d, s, page, out).past.up == s.past.up
  {
  }

  /**
   What `run_display` does next between frames: it ends when the display is no longer wanted, through the
   switch-off exactly if it came up; a display that came up is flushed exactly when something was redrawn
   or the flush is forced, even after reinits that failed; otherwise it waits.
   */
  lemma NextBetweenFrames<Frame(!new)>(d: Display<Frame>, s: State<Frame>)
    requires WellFormed(d) && Reachable(d, s) && s.task.pc == Top
    ensures s.past.up.Some? && Apply(d, s, Exec).Some?
    ensures var t := Apply(d, s, Exec).value; var up := s.past.up.value;
      && (t.task.pc == Off <==> !s.wanted && up)
      && (t.task.pc == Gone <==> !s.wanted && !up)
      && (t.task.pc == Flushing(0, None) <==> s.wanted && up && (s.dirty || s.task.force))
      && (t.task.pc == Idle <==> s.wanted && !(up && (s.dirty || s.task.force)))
      && (t.task.pc.Flushing? ==> !t.dirty && !t.task.force && t.task.attempt == 1)
      && (!t.task.pc.Flushing? ==> t.dirty == s.dirty && t.task.force == s.task.force)
  {
    ReachableLived(d, s);
  }

  /** A failed attempt is followed by another one, until `MAX_ATTEMPTS` of the frame have failed; then by a reinit. */
  lemma ReinitAfterFailures<Frame(!new)>(d: Display<Frame>, s: State<Frame>)
    requires WellFormed(d) && Reachable(d, s) && s.task.pc == Retry
    ensures Apply(d, s, Exec).Some? && s.past.failures <= MAX_ATTEMPTS
    ensures var t := Apply(d, s, Exec).value;
      if s.past.failures == MAX_ATTEMPTS then t.task.pc == Init(false) else t.task.pc == Flushing(0, None)
  {
    ReachableLived(d, s);
  }
}
