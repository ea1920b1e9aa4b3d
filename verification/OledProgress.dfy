/**
 What the display task starts, it ends: a ranking over its own steps and those of the worker thread
 (`run_display`, `flush` and `complete` in src/oled.rs, `I2cWorker` in src/i2c_worker.rs).
 */
module OledProgress {
  import opened Prelude
  import opened OledProtocol
  import opened OledProtocolProofs
  import opened OledHistory

  /** An init, a frame or the switch-off is under way. */
  predicate Busy(pc: Pc) {
    InFrame(pc) || pc.Init? || pc.Sending? || pc.Off?
  }

  /** Where what is under way leads: `run_display` returns after a switch-off, else it loops. */
  function Goal(pc: Pc): Pc {
    if pc.Off? || (pc.Sending? && pc.what.SwitchOff?) then Gone else Top
  }

  /** Back at the loop's head, the last flush was Ok, or the display was initialized and no page is known. */
  predicate Ended<Frame>(goal: Pc, s: State<Frame>) {
    s.task.pc == goal && (goal.Top? ==> s.past.lastOk || forall p | 0 <= p < |s.oled.sent| :: s.oled.sent[p].None?)
  }

  /** A step of the display task or of the worker thread. */
  predicate Own<Frame>(step: Step<Frame>) {
    step.Exec? || step.Receive? || step.Write? || step.Report?
  }

  // Each ahead of what the steps after it can still need.
  const PAGE := 10
  const LAST := 30
  const ATTEMPT := 100
  const RETRY := 20
  const INIT := 10
  const SENDING := 5

  /** The most steps of the two that one frame can take, counted from any point in it. */
  const FRAME_STEPS := 2 * ATTEMPT + MAX_SEGMENTS * PAGE + LAST + 3

  /** The attempts that are left after this one. */
  function Later<Frame>(s: State<Frame>): nat {
    if s.task.attempt <= MAX_ATTEMPTS then MAX_ATTEMPTS - s.task.attempt else 0
  }

  function TaskRank<Frame>(d: Display<Frame>, s: State<Frame>): int {
    match s.task.pc
    case Flushing(page, _) => Later(s) * ATTEMPT + (d.pages - page) * PAGE + LAST
    case Awaiting(page, _, _, parked) => Later(s) * ATTEMPT + (d.pages - page) * PAGE + LAST - (if parked then 2 else 1)
    case Retry => Later(s) * ATTEMPT + RETRY
    case Init(_) => INIT
    case Off => INIT
    case Sending(_, parked) => if parked then SENDING - 1 else SENDING
    case _ => 0
  }

  function Rank<Frame>(d: Display<Frame>, s: State<Frame>): int {
    TaskRank(d, s) + WorkerRank(s)
  }

  lemma RankIsBounded<Frame(!new)>(d: Display<Frame>, s: State<Frame>)
    requires Inv(d, s) && Disciplined(s)
    ensures 0 <= Rank(d, s) <= FRAME_STEPS && (Busy(s.task.pc) ==> Rank(d, s) > 0)
  {
  }

  /** The step ends what was under way, or brings its end closer. */
  ghost predicate Closer<Frame>(d: Display<Frame>, s: State<Frame>, t: State<Frame>) {
    || Ended(Goal(s.task.pc), t)
    || (Busy(t.task.pc) && Goal(t.task.pc) == Goal(s.task.pc) && Rank(d, t) < Rank(d, s))
  }

  lemma WorkerCloser<Frame(!new)>(d: Display<Frame>, s: State<Frame>, step: Step<Frame>)
    requires Inv(d, s) && Busy(s.task.pc) && Own(step) && !step.Exec? && Apply(d, s, step).Some?
    ensures Closer(d, s, Apply(d, s, step).value)
  {
  }

  lemma CommandCloser<Frame(!new)>(d: Display<Frame>, s: State<Frame>)
    requires Inv(d, s) && (s.task.pc.Init? || s.task.pc.Sending? || s.task.pc.Off?) && ExecStep(d, s).Some?
    ensures Closer(d, s, ExecStep(d, s).value)
  {
  }

  /** The loop moves on to the next page, skipping or sending this one. */
  lemma PageCloser<Frame>(d: Display<Frame>, s: State<Frame>, page: nat, out: Option<nat>)
    requires d.pages <= |s.oled.sent| && s.task.pc == Flushing(page, out) && page < d.pages
    requires Buffers(s)
    ensures Closer(d, s, FlushStep(d, s, page, out))
  {
  }

  lemma FlushCloser<Frame>(d: Display<Frame>, s: State<Frame>, page: nat, out: Option<nat>)
    requires d.pages <= |s.oled.sent| && s.task.pc == Flushing(page, out) && page <= d.pages
    requires Buffers(s)
    ensures Closer(d, s, FlushStep(d, s, page, out))
  {
    if page < d.pages { PageCloser(d, s, page, out); }
  }

  /** The write that was waited for is back. */
  lemma AfterPageCloser<Frame>(d: Display<Frame>, s: State<Frame>, buf: Bytes, ok: bool)
    requires s.task.pc.Awaiting? && s.task.pc.prev < |s.oled.sent| && s.task.pc.page <= d.pages <= |s.oled.sent|
    requires s.task.pc.last || s.task.pc.page < d.pages
    requires s.i2c.jobs == [] && s.i2c.worker.Resting?
    ensures Closer(d, s, AfterPage(d, TakeBack(s, buf), s.task.pc.page, s.task.pc.prev, s.task.pc.last, ok))
  {
  }

  lemma AwaitCloser<Frame(!new)>(d: Display<Frame>, s: State<Frame>)
    requires Inv(d, s) && s.task.pc.Awaiting? && ExecStep(d, s).Some?
    ensures Closer(d, s, ExecStep(d, s).value)
  {
    if s.i2c.done.Some? {
      TakenBack(d, s);
      AfterPageCloser(d, s, s.i2c.done.value.0, s.i2c.done.value.1);
    }
  }

  lemma RetryCloser<Frame(!new)>(d: Display<Frame>, s: State<Frame>)
    requires Inv(d, s) && Disciplined(s) && s.task.pc.Retry?
    ensures Closer(d, s, AfterFailure(s))
  {
  }

  /** Every step of the display task or the worker thread gets closer to the end. */
  lemma OwnStepCloser<Frame(!new)>(d: Display<Frame>, s: State<Frame>, step: Step<Frame>)
    requires Inv(d, s) && Disciplined(s) && Busy(s.task.pc) && Own(step) && Apply(d, s, step).Some?
    ensures Closer(d, s, Apply(d, s, step).value)
  {
    if !step.Exec? { WorkerCloser(d, s, step); }
    else if s.task.pc.Flushing? { FlushCloser(d, s, s.task.pc.page, s.task.pc.out); }
    else if s.task.pc.Awaiting? { AwaitCloser(d, s); }
    else if s.task.pc.Retry? { RetryCloser(d, s); }
    else { CommandCloser(d, s); }
  }

  /** Something is under way, in a state that a run can be in. */
  ghost predicate UnderWay<Frame(!new)>(d: Display<Frame>, s: State<Frame>) {
    Inv(d, s) && Disciplined(s) && Busy(s.task.pc)
  }

  lemma OtherStepWaits<Frame(!new)>(d: Display<Frame>, s: State<Frame>, step: Step<Frame>)
    requires !Own(step) && Apply(d, s, step).Some?
    ensures var t := Apply(d, s, step).value; t.task.pc == s.task.pc && Rank(d, t) == Rank(d, s)
  {
  }

  /** What a step leaves under way has no more to go, and less after a step of the two. */
  lemma StepCloser<Frame(!new)>(d: Display<Frame>, s: State<Frame>, step: Step<Frame>)
    requires UnderWay(d, s) && Apply(d, s, step).Some?
    ensures var t := Apply(d, s, step).value;
      || Ended(Goal(s.task.pc), t)
      || (&& UnderWay(d, t) && Goal(t.task.pc) == Goal(s.task.pc)
          && Rank(d, t) <= Rank(d, s) - (if Own(step) then 1 else 0))
  {
    StepKeeps(d, s, step);
    if step.Exec? { ExecDisciplined(d, s); }
    if Own(step) { OwnStepCloser(d, s, step); } else { OtherStepWaits(d, s, step); }
  }

  /** How many steps of a run are the display task's or the worker thread's. */
  function OwnSteps<Frame>(steps: seq<Step<Frame>>): nat {
    if steps == [] then 0 else (if Own(steps[0]) then 1 else 0) + OwnSteps(steps[1..])
  }

  /** The run is at its goal after its first `n` steps. */
  ghost predicate EndedAfter<Frame>(d: Display<Frame>, s: State<Frame>, steps: seq<Step<Frame>>, n: nat, goal: Pc) {
    n <= |steps| && Run(d, s, steps[..n]).Some? && Ended(goal, Run(d, s, steps[..n]).value)
  }

  lemma EndedNow<Frame>(d: Display<Frame>, s: State<Frame>, steps: seq<Step<Frame>>, goal: Pc)
    requires Ended(goal, s)
    ensures EndedAfter(d, s, steps, 0, goal)
  {
    assert steps[..0] == [];
  }

  lemma EndedLater<Frame>(d: Display<Frame>, s: State<Frame>, steps: seq<Step<Frame>>, n: nat, goal: Pc)
    requires steps != [] && Apply(d, s, steps[0]).Some?
    requires EndedAfter(d, Apply(d, s, steps[0]).value, steps[1..], n, goal)
    ensures EndedAfter(d, s, steps, n + 1, goal)
  {
    assert steps[..n + 1][1..] == steps[1..][..n];
  }

  /** A run with as many own steps as the rank gets to its goal on the way. */
  lemma {:induction false} RunEnds<Frame(!new)>(d: Display<Frame>, s: State<Frame>, steps: seq<Step<Frame>>)
      returns (n: nat)
    requires UnderWay(d, s) && Run(d, s, steps).Some? && OwnSteps(steps) >= Rank(d, s)
    ensures EndedAfter(d, s, steps, n, Goal(s.task.pc))
    decreases |steps|
  {
    RankIsBounded(d, s);
    StepCloser(d, s, steps[0]);
    var t := Apply(d, s, steps[0]).value;
    if Ended(Goal(s.task.pc), t) {
      EndedNow(d, t, steps[1..], Goal(s.task.pc));
      n := 0;
    } else {
      n := RunEnds(d, t, steps[1..]);
    }
    EndedLater(d, s, steps, n, Goal(s.task.pc));
    n := n + 1;
  }

  /**
   Whatever write fails, whatever is redrawn and however the two threads interleave: a frame that
   was started is over after at most `FRAME_STEPS` steps of the display task and the worker thread
   together, with the display flushed, or reinitialized and no page taken for known. An init ends
   at the loop's head in the same way, and a switch-off in `run_display`'s return. That one of the
   two can always take a step is `NeverStuck`.
   */
  lemma FrameEnds<Frame(!new)>(d: Display<Frame>, s: State<Frame>, steps: seq<Step<Frame>>)
    requires WellFormed(d) && Reachable(d, s) && Busy(s.task.pc)
    requires Run(d, s, steps).Some? && OwnSteps(steps) >= FRAME_STEPS
    ensures exists n: nat :: EndedAfter(d, s, steps, n, Goal(s.task.pc))
  {
    ReachableInv(d, s);
    ReachableDisciplined(d, s);
    RankIsBounded(d, s);
    var n := RunEnds(d, s, steps);
  }

  lemma ReachableDisciplined<Frame(!new)>(d: Display<Frame>, s: State<Frame>)
    requires Reachable(d, s)
    ensures Disciplined(s)
  {
    var first: State<Frame>, steps: seq<Step<Frame>> :| Initial(d, first) && Run(d, first, steps) == Some(s);
    RunDisciplined(d, first, steps, s);
  }

  // ---------------------------------------------------------------- and it can

  /** The display task if it can run, else the worker thread, with `ok` saying how writes end. */
  function Scheduled<Frame>(d: Display<Frame>, s: State<Frame>, ok: State<Frame> -> bool): Step<Frame> {
    if Apply(d, s, Exec).Some? then Exec else WorkerStep(s, ok(s))
  }

  lemma ScheduledIsEnabled<Frame(!new)>(d: Display<Frame>, s: State<Frame>, ok: State<Frame> -> bool)
    requires UnderWay(d, s)
    ensures Apply(d, s, Scheduled(d, s, ok)).Some? && Own(Scheduled(d, s, ok))
  {
  }

  /** The state after `n` such steps, `None` if one of them was not enabled. */
  function Alone<Frame>(d: Display<Frame>, s: State<Frame>, ok: State<Frame> -> bool, n: nat): Option<State<Frame>>
    decreases n
  {
    if n == 0 then Some(s)
    else match Apply(d, s, Scheduled(d, s, ok))
      case None => None
      case Some(t) => Alone(d, t, ok, n - 1)
  }

  lemma AloneStep<Frame(!new)>(d: Display<Frame>, s: State<Frame>, ok: State<Frame> -> bool)
      returns (t: State<Frame>)
    requires UnderWay(d, s)
    ensures forall n: nat :: Alone(d, s, ok, n + 1) == Alone(d, t, ok, n)
    ensures || Ended(Goal(s.task.pc), t)
      || (UnderWay(d, t) && Goal(t.task.pc) == Goal(s.task.pc) && Rank(d, t) < Rank(d, s))
  {
    var step := Scheduled(d, s, ok);
    ScheduledIsEnabled(d, s, ok);
    StepCloser(d, s, step);
    t := Apply(d, s, step).value;
  }

  lemma {:induction false} AloneEnds<Frame(!new)>(d: Display<Frame>, s: State<Frame>, ok: State<Frame> -> bool)
      returns (n: nat)
    requires UnderWay(d, s)
    ensures n <= Rank(d, s) && Alone(d, s, ok, n).Some? && Ended(Goal(s.task.pc), Alone(d, s, ok, n).value)
    decreases Rank(d, s)
  {
    RankIsBounded(d, s);
    var t := AloneStep(d, s, ok);
    if Ended(Goal(s.task.pc), t) {
      n := 0;
    } else {
      RankIsBounded(d, t);
      n := AloneEnds(d, t, ok);
    }
    assert Alone(d, s, ok, n + 1) == Alone(d, t, ok, n);
    n := n + 1;
  }

  /** Left to themselves, the two get to the end within the bound, whichever writes fail on the way. */
  lemma EndsAlone<Frame(!new)>(d: Display<Frame>, s: State<Frame>, ok: State<Frame> -> bool) returns (n: nat)
    requires WellFormed(d) && Reachable(d, s) && Busy(s.task.pc)
    ensures n <= FRAME_STEPS && Alone(d, s, ok, n).Some? && Ended(Goal(s.task.pc), Alone(d, s, ok, n).value)
  {
    ReachableInv(d, s);
    ReachableDisciplined(d, s);
    RankIsBounded(d, s);
    n := AloneEnds(d, s, ok);
  }

  // ---------------------------------------------------------------- a redraw is shown

  /** The oracle of a bus on which no write fails. */
  function AllOk<Frame>(): State<Frame> -> bool {
    _ => true
  }

  /** A frame is under way in which nothing has failed and nothing was redrawn. */
  predicate Smooth<Frame>(s: State<Frame>) {
    && (s.task.pc.Flushing? || s.task.pc.Awaiting?) && !s.dirty && !s.task.force
    && (s.i2c.worker.Written? ==> s.i2c.worker.ok) && (s.i2c.done.Some? ==> s.i2c.done.value.1)
  }

  /** A step of such a frame on a bus that works, up to and including the one that ends it. */
  lemma SmoothStep<Frame(!new)>(d: Display<Frame>, s: State<Frame>)
    requires Inv(d, s) && Smooth(s) && Apply(d, s, Scheduled(d, s, AllOk())).Some?
    ensures var t := Apply(d, s, Scheduled(d, s, AllOk())).value;
      t.frame == s.frame && (Smooth(t) || UpToDate(t))
  {
    if s.task.pc.Flushing? {
      SmoothFlush(d, s, s.task.pc.page, s.task.pc.out);
    } else if Apply(d, s, Exec).Some? && s.i2c.done.Some? {
      TakenBack(d, s);
      SmoothPage(d, s, s.i2c.done.value.0);
    }
  }

  lemma SmoothFlush<Frame>(d: Display<Frame>, s: State<Frame>, page: nat, out: Option<nat>)
    requires d.pages <= |s.oled.sent| && Buffers(s) && Smooth(s) && s.task.pc == Flushing(page, out)
    ensures var t := FlushStep(d, s, page, out); t.frame == s.frame && (Smooth(t) || UpToDate(t))
  {
  }

  lemma SmoothPage<Frame>(d: Display<Frame>, s: State<Frame>, buf: Bytes)
    requires s.task.pc.Awaiting? && s.task.pc.prev < |s.oled.sent| && (s.task.pc.last || s.task.pc.page < |s.oled.sent|)
    requires Smooth(s) && s.i2c.worker.Resting?
    ensures var t := AfterPage(d, TakeBack(s, buf), s.task.pc.page, s.task.pc.prev, s.task.pc.last, true);
      t.frame == s.frame && (Smooth(t) || UpToDate(t))
  {
  }

  lemma SmoothNext<Frame(!new)>(d: Display<Frame>, s: State<Frame>) returns (t: State<Frame>)
    requires Lived(d, s) && Smooth(s)
    ensures forall n: nat :: Alone(d, s, AllOk(), n + 1) == Alone(d, t, AllOk(), n)
    ensures Lived(d, t) && t.frame == s.frame && (UpToDate(t) || (Smooth(t) && 0 < Rank(d, t) < Rank(d, s)))
  {
    t := AloneStep(d, s, AllOk());
    ScheduledIsEnabled(d, s, AllOk());
    assert Alone(d, s, AllOk(), 0 + 1) == Alone(d, t, AllOk(), 0) == Some(t);
    SmoothStep(d, s);
    StepLived(d, s, Scheduled(d, s, AllOk()));
    RankIsBounded(d, t);
  }

  /** Such a frame, in at most `rank` steps, ends up to date in state `t`. */
  lemma {:induction false} SmoothEnds<Frame(!new)>(d: Display<Frame>, s: State<Frame>, rank: nat)
      returns (n: nat, t: State<Frame>)
    requires Lived(d, s) && Smooth(s) && 0 < Rank(d, s) <= rank
    ensures n <= rank && Alone(d, s, AllOk(), n) == Some(t) && Lived(d, t) && UpToDate(t) && t.frame == s.frame
    decreases rank
  {
    var next := SmoothNext(d, s);
    if UpToDate(next) {
      n, t := 1, next;
      assert Alone(d, s, AllOk(), 0 + 1) == Alone(d, next, AllOk(), 0);
    } else {
      n, t := SmoothEnds(d, next, rank - 1);
      assert Alone(d, s, AllOk(), n + 1) == Alone(d, next, AllOk(), n);
      n := n + 1;
    }
  }

  lemma StartsSmooth<Frame(!new)>(d: Display<Frame>, s: State<Frame>)
    requires Lived(d, s) && s.task.pc == Top && s.wanted && s.dirty && s.past.up == Some(true)
    ensures Smooth(LoopHead(s)) && LoopHead(s).frame == s.frame
    ensures Apply(d, s, Exec) == Some(LoopHead(s)) && Scheduled(d, s, AllOk()) == Exec
  {
  }

  lemma UpToDateIsShown<Frame(!new)>(d: Display<Frame>, s: State<Frame>)
    requires Inv(d, s) && UpToDate(s)
    ensures |s.panel| == d.pages
    ensures forall p | 0 <= p < d.pages ::
      s.panel[p] == d.render(s.frame, p) || Collide(d, p, s.panel[p], d.render(s.frame, p))
  {
  }

  /**
   A redraw is shown: from any state between frames of a display that came up and is wanted, with
   something redrawn, the display task and the worker thread alone, on a bus that works, come within
   the bound to a state in which every page of the panel is the view's, up to a collision; whatever
   failed before.
   */
  lemma RedrawIsShown<Frame(!new)>(d: Display<Frame>, s: State<Frame>) returns (n: nat, t: State<Frame>)
    requires WellFormed(d) && Reachable(d, s) && s.task.pc == Top
    requires s.wanted && s.dirty && s.past.up == Some(true)
    ensures n <= FRAME_STEPS + 1 && Alone(d, s, AllOk(), n) == Some(t) && t.frame == s.frame && UpToDate(t)
    ensures |t.panel| == d.pages
    ensures forall p | 0 <= p < d.pages ::
      t.panel[p] == d.render(t.frame, p) || Collide(d, p, t.panel[p], d.render(t.frame, p))
  {
    ReachableLived(d, s);
    var started := LoopHead(s);
    StartsSmooth(d, s);
    StepLived(d, s, Exec);
    RankIsBounded(d, started);
    n, t := SmoothEnds(d, started, FRAME_STEPS);
    UpToDateIsShown(d, t);
    n := n + 1;
  }
}
