/**
 What every run of the segment flush protocol keeps, and what follows: cache coherence, buffer
 conservation, no lost wakeup, no lost redraw, and that a flush refines a full redraw.
 */
module OledProtocolProofs {
  import opened Prelude
  import opened OledProtocol

  // ---------------------------------------------------------------- the invariant

  /** A write has been submitted and not yet been taken back. */
  predicate Outstanding(pc: Pc) {
    pc.Sending? || pc.Awaiting? || (pc.Flushing? && pc.out.Some?)
  }

  /** The page whose write is outstanding. */
  function OutPage(pc: Pc): Option<nat> {
    match pc
    case Flushing(_, out) => out
    case Awaiting(_, prev, _, _) => Some(prev)
    case _ => None
  }

  predicate Parked(pc: Pc) {
    (pc.Sending? && pc.parked) || (pc.Awaiting? && pc.parked)
  }

  /** How many buffers are in the queue, with the worker thread and in the completion. */
  function InFlight<Frame>(s: State<Frame>): nat {
    |s.i2c.jobs| + (if s.i2c.worker.Resting? then 0 else 1) + (if s.i2c.done.Some? then 1 else 0)
  }

  /** The buffer the display task waits for, wherever it is. */
  function Job<Frame>(s: State<Frame>): Bytes
    requires InFlight(s) > 0
  {
    if s.i2c.done.Some? then s.i2c.done.value.0
    else if !s.i2c.worker.Resting? then s.i2c.worker.buf
    else s.i2c.jobs[0]
  }

  /** The outstanding write has succeeded on the bus. */
  predicate Landed<Frame>(s: State<Frame>) {
    (s.i2c.worker.Written? && s.i2c.worker.ok) || (s.i2c.done.Some? && s.i2c.done.value.1)
  }

  /** `buf` is page `p`'s header and the data the controller takes from it. */
  predicate IsPage<Frame>(d: Display<Frame>, buf: Bytes, p: nat) {
    d.effect(buf).Writes? && d.effect(buf).page == p && buf == d.segment(p, d.effect(buf).data)
  }

  /** The hash of page `p` as the panel holds it. */
  function PanelHash<Frame>(d: Display<Frame>, s: State<Frame>, p: nat): nat
    requires p < |s.panel|
  {
    d.hash(d.segment(p, s.panel[p]))
  }

  ghost predicate Shape<Frame(!new)>(d: Display<Frame>, s: State<Frame>) {
    && WellFormed(d)
    && |s.oled.sent| == MAX_SEGMENTS && |s.past.okWrites| == MAX_SEGMENTS && |s.panel| == d.pages
  }

  ghost predicate Buffers<Frame>(s: State<Frame>) {
    && !s.task.pc.Panicked?
    && (if Outstanding(s.task.pc) then s.oled.spare.None? && InFlight(s) == 1
        else s.oled.spare.Some? && InFlight(s) == 0)
  }

  ghost predicate Wakeups<Frame>(s: State<Frame>) {
    && (!Parked(s.task.pc) ==> !s.i2c.waker)
    && (Parked(s.task.pc) && s.i2c.runnable ==> s.i2c.done.Some? && !s.i2c.waker)
    && (Parked(s.task.pc) && !s.i2c.runnable ==> s.i2c.done.None? && s.i2c.waker)
  }

  ghost predicate JobMeaning<Frame>(d: Display<Frame>, s: State<Frame>)
    requires |s.oled.sent| == MAX_SEGMENTS && Buffers(s)
  {
    && (s.task.pc.Sending? && s.task.pc.what != SwitchOff ==>
          Job(s) == d.initBytes && forall p | 0 <= p < MAX_SEGMENTS :: s.oled.sent[p].None?)
    && (s.task.pc.Sending? && s.task.pc.what.SwitchOff? ==> Job(s) == d.offBytes)
    && (forall p: nat | OutPage(s.task.pc) == Some(p) ::
          p < d.pages <= MAX_SEGMENTS && IsPage(d, Job(s), p) && s.oled.sent[p] == Some(d.hash(Job(s))))
  }

  /** Page `p`'s write is not outstanding, or has landed. */
  predicate Settled<Frame>(s: State<Frame>, p: nat) {
    OutPage(s.task.pc) != Some(p) || Landed(s)
  }

  ghost predicate Coherent<Frame>(d: Display<Frame>, s: State<Frame>)
    requires |s.oled.sent| == MAX_SEGMENTS && |s.panel| == d.pages <= MAX_SEGMENTS
  {
    forall p: nat | p < d.pages && s.oled.sent[p].Some? && Settled(s, p) :: PanelHash(d, s, p) == s.oled.sent[p].value
  }

  /** How many pages the current flush has decided on; all of those are in `prepared`. */
  function Decided(pc: Pc): nat {
    match pc
    case Flushing(page, _) => page
    case Awaiting(page, _, _, _) => page
    case _ => 0
  }

  ghost predicate Prefix<Frame>(d: Display<Frame>, s: State<Frame>)
    requires |s.oled.sent| == MAX_SEGMENTS && d.pages <= MAX_SEGMENTS
  {
    && Decided(s.task.pc) <= d.pages
    && Decided(s.task.pc) <= |s.past.prepared|
    && (InFrame(s.task.pc) ==> forall q: nat | q < |s.past.prepared| :: IsPage(d, s.past.prepared[q], q))
    && (forall q: nat | q < Decided(s.task.pc) :: s.oled.sent[q] == Some(d.hash(s.past.prepared[q])))
    && (s.task.pc.Flushing? ==>
          |s.past.prepared| == s.task.pc.page && (s.task.pc.out.Some? ==> s.task.pc.out.value < s.task.pc.page))
    && (s.task.pc.Awaiting? ==> s.task.pc.prev < s.task.pc.page)
    && (s.task.pc.Awaiting? && s.task.pc.last ==> s.task.pc.page == d.pages == |s.past.prepared|)
    && (s.task.pc.Awaiting? && !s.task.pc.last ==>
          && s.task.pc.page < d.pages && |s.past.prepared| == s.task.pc.page + 1
          && s.oled.prep == s.past.prepared[s.task.pc.page]
          && s.oled.sent[s.task.pc.page] != Some(d.hash(s.oled.prep)))
  }

  predicate InFrame(pc: Pc) {
    pc.Flushing? || pc.Awaiting? || pc.Retry?
  }

  /** Without a redraw since the frame started, what was prepared is what is to be shown. */
  ghost predicate Fresh<Frame>(d: Display<Frame>, s: State<Frame>) {
    InFrame(s.task.pc) && !s.dirty ==>
      && |s.past.prepared| <= d.pages
      && forall q: nat | q < |s.past.prepared| :: s.past.prepared[q] == Segment(d, s.frame, q)
  }

  /** Without a redraw since the frame started, no page is successfully written twice. */
  ghost predicate Once<Frame>(d: Display<Frame>, s: State<Frame>)
    requires |s.oled.sent| == MAX_SEGMENTS && |s.past.okWrites| == MAX_SEGMENTS && d.pages <= MAX_SEGMENTS
  {
    InFrame(s.task.pc) && !s.dirty ==>
      forall q: nat | q < d.pages ::
        && s.past.okWrites[q] <= 1
        && (s.past.okWrites[q] == 1 ==> s.oled.sent[q] == Some(d.hash(Segment(d, s.frame, q))))
        && (OutPage(s.task.pc) == Some(q) ==> s.past.okWrites[q] == if Landed(s) then 1 else 0)
  }

  /** The display task is between frames, and nothing has changed since a flush that was Ok. */
  predicate UpToDate<Frame>(s: State<Frame>) {
    (s.task.pc.Top? || s.task.pc.Idle?) && s.past.lastOk && !s.dirty && !s.task.force
  }

  ghost predicate Current<Frame>(d: Display<Frame>, s: State<Frame>)
    requires |s.oled.sent| == MAX_SEGMENTS && d.pages <= MAX_SEGMENTS
  {
    UpToDate(s) ==> forall p: nat | p < d.pages :: s.oled.sent[p] == Some(d.hash(Segment(d, s.frame, p)))
  }

  /** A flush only follows a frame start, which clears `force`; a first init sets it. */
  ghost predicate Inv<Frame(!new)>(d: Display<Frame>, s: State<Frame>) {
    && Shape(d, s) && Buffers(s) && Wakeups(s) && JobMeaning(d, s) && Coherent(d, s)
    && Prefix(d, s) && Fresh(d, s) && Once(d, s) && Current(d, s)
    && (s.task.pc.Init? || (s.task.pc.Sending? && s.task.pc.what != SwitchOff) ==> !s.past.lastOk)
  }

  // ---------------------------------------------------------------- every step keeps it

  lemma InitialInv<Frame(!new)>(d: Display<Frame>, s: State<Frame>)
    requires WellFormed(d) && Initial(d, s)
    ensures Inv(d, s)
  {
  }

  lemma ReceiveKeeps<Frame(!new)>(d: Display<Frame>, s: State<Frame>)
    requires Inv(d, s) && s.i2c.worker.Resting? && |s.i2c.jobs| > 0
    ensures Inv(d, Received(s))
  {
  }

  lemma WriteKeeps<Frame(!new)>(d: Display<Frame>, s: State<Frame>, ok: bool, noise: seq<Bytes>)
    requires Inv(d, s) && s.i2c.worker.Writing? && |noise| == |s.panel|
    ensures Inv(d, Wrote(d, s, ok, noise))
  {
    assert s.task.pc.Sending? || OutPage(s.task.pc).Some?;
  }

  lemma ReportKeeps<Frame(!new)>(d: Display<Frame>, s: State<Frame>)
    requires Inv(d, s) && s.i2c.worker.Written?
    ensures Inv(d, Reported(s))
  {
  }

  lemma RedrawKeeps<Frame(!new)>(d: Display<Frame>, s: State<Frame>, frame: Frame)
    requires Inv(d, s)
    ensures Inv(d, s.(frame := frame, dirty := true))
  {
  }

  lemma ReconfigureKeeps<Frame(!new)>(d: Display<Frame>, s: State<Frame>, wanted: bool)
    requires Inv(d, s)
    ensures Inv(d, s.(wanted := wanted))
  {
  }

  lemma InitKeeps<Frame(!new)>(d: Display<Frame>, s: State<Frame>, first: bool)
    requires Inv(d, s) && s.task.pc == Init(first)
    ensures Inv(d, StartInit(d, s, first))
  {
  }

  lemma OffKeeps<Frame(!new)>(d: Display<Frame>, s: State<Frame>)
    requires Inv(d, s) && s.task.pc.Off?
    ensures Inv(d, StartOff(d, s))
  {
  }

  /** A poll that finds nothing changes no buffer. */
  lemma ParkKeeps<Frame(!new)>(d: Display<Frame>, s: State<Frame>)
    requires Inv(d, s) && s.i2c.done.None?
    ensures s.task.pc.Sending? ==> Inv(d, Park(s, Sending(s.task.pc.what, true)))
    ensures s.task.pc.Awaiting? ==> Inv(d, Park(s, Awaiting(s.task.pc.page, s.task.pc.prev, s.task.pc.last, true)))
  {
  }

  /** Taking the finished write back empties the pipeline. */
  lemma TakenBack<Frame(!new)>(d: Display<Frame>, s: State<Frame>)
    requires Inv(d, s) && Outstanding(s.task.pc) && s.i2c.done.Some?
    ensures s.i2c.jobs == [] && s.i2c.worker.Resting? && Job(s) == s.i2c.done.value.0 && s.oled.spare.None?
    ensures Landed(s) == s.i2c.done.value.1
  {
  }

  lemma FirstInitKeeps<Frame(!new)>(d: Display<Frame>, s: State<Frame>, buf: Bytes, ok: bool)
    requires Inv(d, s) && s.task.pc.Sending? && s.task.pc.what.FirstInit? && s.i2c.done == Some((buf, ok))
    ensures Inv(d, AfterCommand(TakeBack(s, buf), FirstInit, ok))
  {
    TakenBack(d, s);
  }

  lemma ReinitKeeps<Frame(!new)>(d: Display<Frame>, s: State<Frame>, buf: Bytes, ok: bool)
    requires Inv(d, s) && s.task.pc.Sending? && s.task.pc.what.Reinit? && s.i2c.done == Some((buf, ok))
    ensures Inv(d, TakeBack(s, buf).(task := TakeBack(s, buf).task.(pc := Top)))
  {
    TakenBack(d, s);
  }

  lemma SwitchedOffKeeps<Frame(!new)>(d: Display<Frame>, s: State<Frame>, buf: Bytes, ok: bool)
    requires Inv(d, s) && s.task.pc.Sending? && s.task.pc.what.SwitchOff? && s.i2c.done == Some((buf, ok))
    ensures Inv(d, TakeBack(s, buf).(task := TakeBack(s, buf).task.(pc := Gone)))
  {
    TakenBack(d, s);
  }

  lemma CommandKeeps<Frame(!new)>(d: Display<Frame>, s: State<Frame>, buf: Bytes, ok: bool)
    requires Inv(d, s) && s.task.pc.Sending? && s.i2c.done == Some((buf, ok))
    ensures Inv(d, AfterCommand(TakeBack(s, buf), s.task.pc.what, ok))
  {
    match s.task.pc.what
    case FirstInit => FirstInitKeeps(d, s, buf, ok);
    case Reinit => ReinitKeeps(d, s, buf, ok);
    case SwitchOff => SwitchedOffKeeps(d, s, buf, ok);
  }

  lemma LoopKeeps<Frame(!new)>(d: Display<Frame>, s: State<Frame>)
    requires Inv(d, s) && s.task.pc.Top?
    ensures Inv(d, LoopHead(s))
  {
  }

  lemma IdleKeeps<Frame(!new)>(d: Display<Frame>, s: State<Frame>)
    requires Inv(d, s) && s.task.pc.Idle?
    ensures Inv(d, s.(task := s.task.(pc := Top)))
  {
  }

  lemma AgainKeeps<Frame(!new)>(d: Display<Frame>, s: State<Frame>)
    requires Inv(d, s) && s.task.pc.Retry? && s.task.attempt < MAX_ATTEMPTS
    ensures Inv(d, AfterFailure(s))
  {
  }

  lemma GiveUpKeeps<Frame(!new)>(d: Display<Frame>, s: State<Frame>)
    requires Inv(d, s) && s.task.pc.Retry? && s.task.attempt >= MAX_ATTEMPTS
    ensures Inv(d, AfterFailure(s))
  {
  }

  /** The page's content was already sent: nothing goes out. */
  lemma SkipKeeps<Frame(!new)>(d: Display<Frame>, s: State<Frame>, page: nat, buf: Bytes)
    requires Inv(d, s) && s.task.pc.Flushing? && s.task.pc.page == page < d.pages
    requires buf == Segment(d, s.frame, page) && s.oled.sent[page] == Some(d.hash(buf))
    ensures Inv(d, Prepared(s, buf).(task := s.task.(pc := Flushing(page + 1, s.task.pc.out))))
  {
    SkipPrepared(d, s, page, buf);
  }

  lemma SkipPrepared<Frame(!new)>(d: Display<Frame>, s: State<Frame>, page: nat, buf: Bytes)
    requires Inv(d, s) && s.task.pc.Flushing? && s.task.pc.page == page < d.pages
    requires buf == Segment(d, s.frame, page) && s.oled.sent[page] == Some(d.hash(buf))
    ensures var t := Prepared(s, buf).(task := s.task.(pc := Flushing(page + 1, s.task.pc.out)));
      Prefix(d, t) && Fresh(d, t)
  {
    assert d.effect(buf) == Writes(page, d.render(s.frame, page));
  }

  /** The page changed, but the other buffer is still out. */
  lemma HoldKeeps<Frame(!new)>(d: Display<Frame>, s: State<Frame>, page: nat, prev: nat, buf: Bytes)
    requires Inv(d, s) && s.task.pc == Flushing(page, Some(prev)) && page < d.pages
    requires buf == Segment(d, s.frame, page) && s.oled.sent[page] != Some(d.hash(buf))
    ensures Inv(d, Prepared(s, buf).(task := s.task.(pc := Awaiting(page, prev, false, false))))
  {
    HoldPrepared(d, s, page, prev, buf);
  }

  lemma HoldPrepared<Frame(!new)>(d: Display<Frame>, s: State<Frame>, page: nat, prev: nat, buf: Bytes)
    requires Inv(d, s) && s.task.pc == Flushing(page, Some(prev)) && page < d.pages
    requires buf == Segment(d, s.frame, page) && s.oled.sent[page] != Some(d.hash(buf))
    ensures var t := Prepared(s, buf).(task := s.task.(pc := Awaiting(page, prev, false, false)));
      Prefix(d, t) && Fresh(d, t)
  {
    assert d.effect(buf) == Writes(page, d.render(s.frame, page));
  }

  /** The page changed and goes out at once. */
  lemma SendKeeps<Frame(!new)>(d: Display<Frame>, s: State<Frame>, page: nat, buf: Bytes)
    requires Inv(d, s) && s.task.pc == Flushing(page, None) && page < d.pages
    requires buf == Segment(d, s.frame, page) && s.oled.sent[page] != Some(d.hash(buf))
    ensures Inv(d, SubmitPage(d, Prepared(s, buf), page))
  {
    assert d.effect(buf) == Writes(page, d.render(s.frame, page));
    SendPrepared(d, s, page, buf);
  }

  lemma SendPrepared<Frame(!new)>(d: Display<Frame>, s: State<Frame>, page: nat, buf: Bytes)
    requires Inv(d, s) && s.task.pc == Flushing(page, None) && page < d.pages
    requires buf == Segment(d, s.frame, page) && s.oled.sent[page] != Some(d.hash(buf))
    ensures var t := SubmitPage(d, Prepared(s, buf), page); Prefix(d, t) && Fresh(d, t)
  {
    assert d.effect(buf) == Writes(page, d.render(s.frame, page));
  }

  lemma FinishKeeps<Frame(!new)>(d: Display<Frame>, s: State<Frame>, prev: nat)
    requires Inv(d, s) && s.task.pc == Flushing(d.pages, Some(prev))
    ensures Inv(d, s.(task := s.task.(pc := Awaiting(d.pages, prev, true, false))))
  {
  }

  lemma OkKeeps<Frame(!new)>(d: Display<Frame>, s: State<Frame>)
    requires Inv(d, s) && s.task.pc == Flushing(d.pages, None)
    ensures Inv(d, FlushOk(s))
  {
  }

  /** The write failed: its page's hash is forgotten. */
  lemma FailedKeeps<Frame(!new)>(d: Display<Frame>, s: State<Frame>, buf: Bytes)
    requires Inv(d, s) && s.task.pc.Awaiting? && s.i2c.done == Some((buf, false))
    ensures Inv(d, AfterPage(d, TakeBack(s, buf), s.task.pc.page, s.task.pc.prev, s.task.pc.last, false))
  {
    TakenBack(d, s);
  }

  lemma LastKeeps<Frame(!new)>(d: Display<Frame>, s: State<Frame>, buf: Bytes)
    requires Inv(d, s) && s.task.pc.Awaiting? && s.task.pc.last && s.i2c.done == Some((buf, true))
    ensures Inv(d, FlushOk(TakeBack(s, buf)))
  {
    TakenBack(d, s);
  }

  lemma NextKeeps<Frame(!new)>(d: Display<Frame>, s: State<Frame>, buf: Bytes)
    requires Inv(d, s) && s.task.pc.Awaiting? && !s.task.pc.last && s.i2c.done == Some((buf, true))
    ensures Inv(d, SubmitPage(d, TakeBack(s, buf), s.task.pc.page))
  {
    TakenBack(d, s);
  }

  lemma FlushingKeeps<Frame(!new)>(d: Display<Frame>, s: State<Frame>, page: nat, out: Option<nat>)
    requires Inv(d, s) && s.task.pc == Flushing(page, out)
    ensures Inv(d, FlushStep(d, s, page, out))
  {
    var buf := Segment(d, s.frame, page);
    if page >= d.pages {
      if out.Some? { FinishKeeps(d, s, out.value); } else { OkKeeps(d, s); }
    } else if s.oled.sent[page] == Some(d.hash(buf)) { SkipKeeps(d, s, page, buf); }
    else if out.Some? { HoldKeeps(d, s, page, out.value, buf); }
    else { SendKeeps(d, s, page, buf); }
  }

  lemma AwaitingKeeps<Frame(!new)>(d: Display<Frame>, s: State<Frame>, buf: Bytes, ok: bool)
    requires Inv(d, s) && s.task.pc.Awaiting? && s.i2c.done == Some((buf, ok))
    ensures Inv(d, AfterPage(d, TakeBack(s, buf), s.task.pc.page, s.task.pc.prev, s.task.pc.last, ok))
  {
    if !ok { FailedKeeps(d, s, buf); }
    else if s.task.pc.last { LastKeeps(d, s, buf); }
    else { NextKeeps(d, s, buf); }
  }

  lemma ExecKeeps<Frame(!new)>(d: Display<Frame>, s: State<Frame>)
    requires Inv(d, s) && ExecStep(d, s).Some?
    ensures Inv(d, ExecStep(d, s).value)
  {
    match s.task.pc
    case Init(first) => InitKeeps(d, s, first);
    case Off => OffKeeps(d, s);
    case Top => LoopKeeps(d, s);
    case Idle => IdleKeeps(d, s);
    case Retry => if s.task.attempt < MAX_ATTEMPTS { AgainKeeps(d, s); } else { GiveUpKeeps(d, s); }
    case Flushing(page, out) => FlushingKeeps(d, s, page, out);
    case Sending(_, _) =>
      if s.i2c.done.None? { ParkKeeps(d, s); } else { CommandKeeps(d, s, s.i2c.done.value.0, s.i2c.done.value.1); }
    case Awaiting(_, _, _, _) =>
      if s.i2c.done.None? { ParkKeeps(d, s); } else { AwaitingKeeps(d, s, s.i2c.done.value.0, s.i2c.done.value.1); }
  }

  lemma StepKeeps<Frame(!new)>(d: Display<Frame>, s: State<Frame>, step: Step<Frame>)
    requires Inv(d, s) && Apply(d, s, step).Some?
    ensures Inv(d, Apply(d, s, step).value)
  {
    match step
    case Receive => ReceiveKeeps(d, s);
    case Write(ok, noise) => WriteKeeps(d, s, ok, noise);
    case Report => ReportKeeps(d, s);
    case Redraw(frame) => RedrawKeeps(d, s, frame);
    case Reconfigure(wanted) => ReconfigureKeeps(d, s, wanted);
    case Exec => ExecKeeps(d, s);
  }

  lemma {:induction false} RunKeeps<Frame(!new)>(
      d: Display<Frame>, s: State<Frame>, steps: seq<Step<Frame>>, t: State<Frame>)
    requires Inv(d, s) && Run(d, s, steps) == Some(t)
    ensures Inv(d, t)
    decreases |steps|
  {
    if steps != [] {
      var u := Apply(d, s, steps[0]).value;
      StepKeeps(d, s, steps[0]);
      RunKeeps(d, u, steps[1..], t);
    }
  }

  lemma ReachableInv<Frame(!new)>(d: Display<Frame>, t: State<Frame>)
    requires WellFormed(d) && Reachable(d, t)
    ensures Inv(d, t)
  {
    var s: State<Frame>, steps: seq<Step<Frame>> :| Initial(d, s) && Run(d, s, steps) == Some(t);
    InitialInv(d, s);
    RunKeeps(d, s, steps, t);
  }

  // ---------------------------------------------------------------- what follows for every run

  /**
   Cache coherence: whatever failed, was retried, reinitialized or redrawn midway, a page whose
   hash is kept either has its write still outstanding, with a buffer of that hash, or the panel
   holds exactly data that hashes to it.
   */
  lemma CacheCoherence<Frame(!new)>(d: Display<Frame>, s: State<Frame>, p: nat)
    requires WellFormed(d) && Reachable(d, s) && p < d.pages
    ensures p < |s.oled.sent| && p < |s.panel|
    ensures s.oled.sent[p].Some? ==>
      || (OutPage(s.task.pc) == Some(p) && InFlight(s) == 1 && d.hash(Job(s)) == s.oled.sent[p].value)
      || PanelHash(d, s, p) == s.oled.sent[p].value
  {
    ReachableInv(d, s);
  }

  /**
   Two buffers exist at all times: `prep`, and one that is either `spare` or on its way through
   exactly one of queue, worker and completion. So at most one write is outstanding, and
   neither `expect` on `spare` can fire.
   */
  lemma BufferConservation<Frame(!new)>(d: Display<Frame>, s: State<Frame>)
    requires WellFormed(d) && Reachable(d, s)
    ensures (if s.oled.spare.Some? then 1 else 0) + InFlight(s) == 1
    ensures InFlight(s) == 1 <==> Outstanding(s.task.pc)
    ensures s.task.pc != Panicked
  {
    ReachableInv(d, s);
  }

  /** How many steps of the worker thread are left before it reports. */
  function WorkerRank<Frame>(s: State<Frame>): nat {
    match s.i2c.worker
    case Written(_, _) => 1
    case Writing(_) => 2
    case Resting => if |s.i2c.jobs| > 0 then 3 else 0
  }

  function WorkerStep<Frame>(s: State<Frame>, ok: bool): Step<Frame> {
    match s.i2c.worker
    case Resting => Receive
    case Writing(_) => Write(ok, s.panel)
    case Written(_, _) => Report
  }

  /** A task parked in `complete` whose write is done has been woken. */
  lemma NoLostWakeup<Frame(!new)>(d: Display<Frame>, s: State<Frame>)
    requires WellFormed(d) && Reachable(d, s) && Parked(s.task.pc)
    ensures s.i2c.done.Some? <==> s.i2c.runnable
    ensures s.i2c.done.None? ==> s.i2c.waker && WorkerRank(s) > 0
  {
    ReachableInv(d, s);
  }

  /**
   A parked task's write is always on its way: each step of the worker thread is enabled and
   brings it closer, and the last one wakes the display task.
   */
  lemma WorkerProgress<Frame(!new)>(d: Display<Frame>, s: State<Frame>, ok: bool)
    requires WellFormed(d) && Reachable(d, s) && Parked(s.task.pc) && !s.i2c.runnable
    ensures Apply(d, s, WorkerStep(s, ok)).Some?
    ensures var t := Apply(d, s, WorkerStep(s, ok)).value;
      t.task.pc == s.task.pc && (if WorkerRank(s) == 1 then t.i2c.runnable else WorkerRank(t) == WorkerRank(s) - 1)
  {
    ReachableInv(d, s);
  }

  /**
   The display task runs whenever it has not ended, but for an await that still waits for its wakeup. An
   await that finds its write unfinished registers its waker and yields at once, so that it never
   holds up the other tasks.
   */
  lemma AwaitsYield<Frame(!new)>(d: Display<Frame>, s: State<Frame>)
    requires WellFormed(d) && Reachable(d, s)
    ensures Apply(d, s, Exec).Some? <==> s.task.pc != Gone && !(Parked(s.task.pc) && !s.i2c.runnable)
    ensures (s.task.pc.Sending? || s.task.pc.Awaiting?) && !Parked(s.task.pc) && s.i2c.done.None? ==>
      var t := Apply(d, s, Exec).value; Parked(t.task.pc) && Yielded(t.task.pc) && t.i2c.waker && !t.i2c.runnable
  {
    ReachableInv(d, s);
  }

  /** The display task is never stuck: it can run, or the worker thread can. */
  lemma NeverStuck<Frame(!new)>(d: Display<Frame>, s: State<Frame>)
    requires WellFormed(d) && Reachable(d, s) && s.task.pc != Gone
    ensures Apply(d, s, Exec).Some? || Apply(d, s, WorkerStep(s, true)).Some?
  {
    ReachableInv(d, s);
  }

  /** Two different contents of page `p` that hash alike. */
  predicate Collide<Frame>(d: Display<Frame>, p: nat, a: Bytes, b: Bytes) {
    a != b && d.hash(d.segment(p, a)) == d.hash(d.segment(p, b))
  }

  /** The step by which `flush` returns Ok. */
  ghost predicate FlushReturnsOk<Frame>(d: Display<Frame>, s: State<Frame>, t: State<Frame>) {
    Apply(d, s, Exec) == Some(t) && t.task.pc == Top && (s.task.pc.Flushing? || s.task.pc.Awaiting?)
  }

  /**
   A `flush` that returns Ok leaves no write outstanding and each page of the panel with the hash
   of what `prepare` computed for it in that flush, whether it was sent or skipped: without a
   collision the panel holds exactly that data, as if the whole frame had been sent. With nothing
   redrawn meanwhile, that data is the current view.
   */
  lemma FlushRefinesFullRedraw<Frame(!new)>(d: Display<Frame>, s: State<Frame>, t: State<Frame>, p: nat)
    requires WellFormed(d) && Reachable(d, s) && FlushReturnsOk(d, s, t) && p < d.pages
    ensures |t.past.prepared| == d.pages == |t.panel| && InFlight(t) == 0
    ensures IsPage(d, t.past.prepared[p], p) && PanelHash(d, t, p) == d.hash(t.past.prepared[p])
    ensures var data := d.effect(t.past.prepared[p]).data; t.panel[p] == data || Collide(d, p, t.panel[p], data)
    ensures !t.dirty ==> d.effect(t.past.prepared[p]).data == d.render(t.frame, p)
  {
    ReachableInv(d, s);
    assert d.effect(Segment(d, s.frame, p)) == Writes(p, d.render(s.frame, p));
    if s.task.pc.Awaiting? { TakenBack(d, s); }
  }

  /**
   As long as nothing is redrawn, the attempts of one frame write no page successfully more
   than once.
   */
  lemma WrittenAtMostOnce<Frame(!new)>(d: Display<Frame>, s: State<Frame>, p: nat)
    requires WellFormed(d) && Reachable(d, s) && InFrame(s.task.pc) && !s.dirty && p < d.pages
    ensures p < |s.past.okWrites| && s.past.okWrites[p] <= 1
  {
    ReachableInv(d, s);
  }

  /**
   No redraw is lost: between frames, with the dirty flag clear and the last flush Ok, every page
   of the panel is the current view's, unless the two collide.
   */
  lemma NoLostRedraw<Frame(!new)>(d: Display<Frame>, s: State<Frame>, p: nat)
    requires WellFormed(d) && Reachable(d, s) && UpToDate(s) && p < d.pages
    ensures p < |s.panel|
    ensures s.panel[p] == d.render(s.frame, p) || Collide(d, p, s.panel[p], d.render(s.frame, p))
  {
    ReachableInv(d, s);
  }

  /** Every page's kept hash is that of the current frame. */
  predicate AllSent<Frame>(d: Display<Frame>, s: State<Frame>) {
    d.pages <= |s.oled.sent| && forall p | 0 <= p < d.pages :: s.oled.sent[p] == Some(d.hash(Segment(d, s.frame, p)))
  }

  /** Running the display task alone for a while. */
  function Execs<Frame>(count: nat): seq<Step<Frame>> {
    seq(count, (i: nat) => Exec)
  }

  lemma RunCons<Frame>(d: Display<Frame>, s: State<Frame>, step: Step<Frame>, rest: seq<Step<Frame>>, t: State<Frame>)
    requires Apply(d, s, step) == Some(t)
    ensures Run(d, s, [step] + rest) == Run(d, t, rest)
  {
    assert ([step] + rest)[1..] == rest;
  }

  /** From `page` on, a flush of an unchanged frame only skips, and returns Ok without an await. */
  lemma {:induction false} SkipsToEnd<Frame>(d: Display<Frame>, s: State<Frame>, page: nat)
    requires AllSent(d, s) && s.task.pc == Flushing(page, None) && page <= d.pages
    ensures Run(d, s, Execs(d.pages - page + 1)).Some?
    ensures var t := Run(d, s, Execs(d.pages - page + 1)).value;
      && t.task.pc == Top && t.past.lastOk && t.dirty == s.dirty && t.task.force == s.task.force
      && t.i2c == s.i2c && t.oled.sent == s.oled.sent && t.panel == s.panel && t.past.okWrites == s.past.okWrites
    decreases d.pages - page
  {
    var t := FlushStep(d, s, page, None);
    var rest := Execs<Frame>(d.pages - page);
    assert Execs(d.pages - page + 1) == [Exec] + rest;
    RunCons(d, s, Exec, rest, t);
    if page < d.pages {
      SkipsToEnd(d, t, page + 1);
    } else {
      assert rest == [];
    }
  }

  /** Drawing the same frame once more, and running the display task to the end of the next frame. */
  function FrameAgain<Frame>(d: Display<Frame>, frame: Frame): seq<Step<Frame>> {
    [Redraw(frame)] + ([Exec] + ([Exec] + Execs(d.pages + 1)))
  }

  /** The state in which that frame's flush starts. */
  function Restarted<Frame>(s: State<Frame>): State<Frame> {
    LoopHead(s.(dirty := true, task := s.task.(pc := Top)))
  }

  lemma DrawnAgain<Frame>(d: Display<Frame>, s: State<Frame>)
    requires s.task.pc.Idle? && s.wanted && s.task.initialized && d.pages <= |s.oled.sent|
    ensures Run(d, s, FrameAgain(d, s.frame)) == Run(d, Restarted(s), Execs(d.pages + 1))
  {
    var drawn := s.(dirty := true);
    var top := drawn.(task := s.task.(pc := Top));
    var rest := Execs<Frame>(d.pages + 1);
    RunCons(d, s, Redraw(s.frame), [Exec] + ([Exec] + rest), drawn);
    RunCons(d, drawn, Exec, [Exec] + rest, top);
    RunCons(d, top, Exec, rest, LoopHead(top));
  }

  /** Nothing went out, and the display is up to date again. */
  predicate SentNothing<Frame>(s: State<Frame>, end: State<Frame>) {
    && UpToDate(end) && end.i2c == s.i2c && end.panel == s.panel
    && forall p | 0 <= p < |end.past.okWrites| :: end.past.okWrites[p] == 0
  }

  lemma RestartedSkips<Frame>(d: Display<Frame>, s: State<Frame>)
    requires AllSent(d, s) && s.task.pc.Idle? && s.wanted && s.task.initialized
    ensures var end := Run(d, Restarted(s), Execs(d.pages + 1)); end.Some? && SentNothing(s, end.value)
  {
    SkipsToEnd(d, Restarted(s), 0);
  }

  lemma UpToDateIsSent<Frame(!new)>(d: Display<Frame>, s: State<Frame>)
    requires WellFormed(d) && Reachable(d, s) && UpToDate(s)
    ensures AllSent(d, s)
  {
    ReachableInv(d, s);
  }

  /**
   After an Ok flush, drawing the same frame again and flushing it sends nothing at all: the run
   goes to the end of the next frame without submitting a buffer, and the panel stays as it is.
   */
  lemma FlushAgainSendsNothing<Frame(!new)>(d: Display<Frame>, s: State<Frame>)
    requires WellFormed(d) && Reachable(d, s) && UpToDate(s)
    requires s.task.pc.Idle? && s.wanted && s.task.initialized
    ensures var end := Run(d, s, FrameAgain(d, s.frame)); end.Some? && SentNothing(s, end.value)
  {
    UpToDateIsSent(d, s);
    DrawnAgain(d, s);
    RestartedSkips(d, s);
  }

  // ---------------------------------------------------------------- attempts

  /** A display whose first init failed is left alone; a frame has at most three attempts. */
  predicate Disciplined<Frame>(s: State<Frame>) {
    var pc := s.task.pc;
    && (InFrame(pc) ==> s.task.initialized && 1 <= s.task.attempt <= MAX_ATTEMPTS)
    && (pc.Off? || (pc.Init? && !pc.first) || (pc.Sending? && !pc.what.FirstInit?) ==> s.task.initialized)
  }

  lemma FlushDisciplined<Frame>(d: Display<Frame>, s: State<Frame>, page: nat, out: Option<nat>)
    requires Disciplined(s) && d.pages <= |s.oled.sent| && s.task.pc == Flushing(page, out)
    ensures Disciplined(FlushStep(d, s, page, out))
  {
  }

  lemma PageDisciplined<Frame>(d: Display<Frame>, s: State<Frame>, buf: Bytes, ok: bool)
    requires Disciplined(s) && s.task.pc.Awaiting? && s.task.pc.prev < |s.oled.sent|
    requires !s.task.pc.last ==> s.task.pc.page < |s.oled.sent|
    ensures Disciplined(AfterPage(d, TakeBack(s, buf), s.task.pc.page, s.task.pc.prev, s.task.pc.last, ok))
  {
  }

  lemma CommandDisciplined<Frame>(s: State<Frame>, buf: Bytes, ok: bool)
    requires Disciplined(s) && s.task.pc.Sending?
    ensures Disciplined(AfterCommand(TakeBack(s, buf), s.task.pc.what, ok))
  {
  }

  lemma LoopDisciplined<Frame>(s: State<Frame>)
    requires Disciplined(s)
    ensures s.task.pc.Top? ==> Disciplined(LoopHead(s))
    ensures s.task.pc.Retry? ==> Disciplined(AfterFailure(s))
  {
  }

  lemma ExecDisciplined<Frame>(d: Display<Frame>, s: State<Frame>)
    requires Disciplined(s) && d.pages <= |s.oled.sent| && ExecStep(d, s).Some?
    ensures Disciplined(ExecStep(d, s).value)
  {
    LoopDisciplined(s);
    match s.task.pc
    case Flushing(page, out) => FlushDisciplined(d, s, page, out);
    case Awaiting(page, prev, last, _) =>
      if s.i2c.done.Some? && prev < |s.oled.sent| && (last || page < |s.oled.sent|) {
        PageDisciplined(d, s, s.i2c.done.value.0, s.i2c.done.value.1);
      }
    case Sending(_, _) =>
      if s.i2c.done.Some? { CommandDisciplined(s, s.i2c.done.value.0, s.i2c.done.value.1); }
    case _ =>
  }

  lemma {:induction false} RunDisciplined<Frame(!new)>(
      d: Display<Frame>, s: State<Frame>, steps: seq<Step<Frame>>, t: State<Frame>)
    requires Disciplined(s) && Run(d, s, steps) == Some(t)
    ensures Disciplined(t)
    decreases |steps|
  {
    if steps != [] {
      if steps[0].Exec? { ExecDisciplined(d, s); }
      RunDisciplined(d, Apply(d, s, steps[0]).value, steps[1..], t);
    }
  }

  /**
   Only a display whose first init succeeded is flushed, reinitialized or switched off, and a frame
   is tried at most `MAX_ATTEMPTS` times: another failure then reinitializes the display.
   */
  lemma AttemptsAreBounded<Frame(!new)>(d: Display<Frame>, s: State<Frame>)
    requires Reachable(d, s)
    ensures InFrame(s.task.pc) || s.task.pc.Off? || s.task.pc == Init(false) ==> s.task.initialized
    ensures InFrame(s.task.pc) ==> 1 <= s.task.attempt <= MAX_ATTEMPTS
    ensures s.task.pc.Retry? && s.task.attempt == MAX_ATTEMPTS ==> AfterFailure(s).task.pc == Init(false)
  {
    var first: State<Frame>, steps: seq<Step<Frame>> :| Initial(d, first) && Run(d, first, steps) == Some(s);
    RunDisciplined(d, first, steps, s);
  }

  /** A first init that succeeded is followed by a frame, dirty or not, while the display is wanted. */
  lemma FirstFrameGoesOut<Frame(!new)>(d: Display<Frame>, s: State<Frame>, buf: Bytes)
    requires WellFormed(d) && Reachable(d, s) && s.wanted
    requires s.task.pc.Sending? && s.task.pc.what.FirstInit? && s.i2c.done == Some((buf, true))
    ensures var t := Run(d, s, Execs(2));
      t.Some? && t.value.task.pc == Flushing(0, None) && !t.value.dirty && !t.value.task.force
  {
    ReachableInv(d, s);
    var up := AfterCommand(TakeBack(s, buf), FirstInit, true);
    assert Execs<Frame>(2) == [Exec] + Execs(1) && Execs<Frame>(1) == [Exec] + Execs(0);
    RunCons(d, s, Exec, Execs(1), up);
    RunCons(d, up, Exec, Execs(0), LoopHead(up));
  }
}
