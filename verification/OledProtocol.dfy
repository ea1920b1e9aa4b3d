/**
 The segment flush protocol of the OLED driver (src/oled.rs), as a transition system.

 Three parties interleave:
  - the display task (`run_display` with `init`, `off`, `send_prep`, `flush` and `complete`), which
    runs on the cooperative executor and yields only at its awaits;
  - the I2C worker thread, which is preemptive and may act between any two steps of the display task;
  - every other task on the executor, which may change what is to be shown (`Redraw`) or the
    configuration (`Reconfigure`) whenever the display task has yielded.

 A run is any sequence of `Step`s that are enabled one after the other.
 */
module OledProtocol {
  import opened Prelude

  /** `MAX_SEGMENTS`: how many pages the largest display RAM has. */
  const MAX_SEGMENTS := 8
  /** Flush attempts per frame before the display is reinitialized. */
  const MAX_ATTEMPTS := 3

  /** What one I2C write does to the controller's display RAM. */
  datatype Effect = Scrambles | Keeps | Writes(page: nat, data: Bytes)

  /**
   One display: its chip's byte sequences, how a page's data is put behind its header, how a page
   of a frame is rendered, how the controller reads a write, and the hash pages are compared by.
   */
  datatype Display<!Frame> = Display(
    pages: nat,
    initBytes: Bytes,
    offBytes: Bytes,
    segment: (nat, Bytes) -> Bytes,
    render: (Frame, nat) -> Bytes,
    effect: Bytes -> Effect,
    hash: Bytes -> nat)

  /** What `prepare` leaves in `prep` for one page. */
  function Segment<Frame>(d: Display<Frame>, frame: Frame, page: nat): Bytes {
    d.segment(page, d.render(frame, page))
  }

  /** The controller takes each sequence as what the driver means by it. */
  ghost predicate WellFormed<Frame(!new)>(d: Display<Frame>) {
    && d.pages <= MAX_SEGMENTS
    && d.effect(d.initBytes) == Scrambles
    && d.effect(d.offBytes) == Keeps
    && (forall f: Frame, p: nat | p < d.pages :: d.effect(Segment(d, f, p)) == Writes(p, d.render(f, p)))
  }

  datatype Worker = Resting | Writing(buf: Bytes) | Written(buf: Bytes, ok: bool)
  datatype Command = FirstInit | Reinit | SwitchOff

  /** Where the display task is. `parked` marks an await that has returned `Pending`. */
  datatype Pc =
    | Init(first: bool)
    | Sending(what: Command, parked: bool)
    | Top
    | Idle
    | Flushing(page: nat, out: Option<nat>)
    | Awaiting(page: nat, prev: nat, last: bool, parked: bool)
    | Retry
    | Off
    | Gone
    | Panicked

  /** `OledDisplay`: the buffer being prepared, the other one, and the hash of each page last sent. */
  datatype Oled = Oled(prep: Bytes, spare: Option<Bytes>, sent: seq<Option<nat>>)

  /** `I2cWorker`: its queue, its thread, its completion, and whether the waiting task was woken. */
  datatype I2c = I2c(jobs: seq<Bytes>, worker: Worker, done: Option<(Bytes, bool)>, waker: bool, runnable: bool)

  /** The locals of `run_display`. */
  datatype Task = Task(pc: Pc, initialized: bool, force: bool, attempt: nat)

  /**
   History: whether the last flush was Ok, what the current one has prepared so far, how often each
   page was successfully written since the frame started and how many of its attempts failed; the
   outcome of the first init, and the last buffer that went over the bus.
   */
  datatype Past = Past(
    lastOk: bool,
    prepared: seq<Bytes>,
    okWrites: seq<nat>,
    failures: nat,
    up: Option<bool>,
    written: Option<Bytes>)

  /** `frame`, `dirty` and `wanted` are shared with the other tasks; `panel` is the display RAM. */
  datatype State<Frame> = State(
    frame: Frame,
    dirty: bool,
    wanted: bool,
    oled: Oled,
    i2c: I2c,
    task: Task,
    panel: seq<Bytes>,
    past: Past)

  datatype Step<Frame> =
    | Exec
    | Receive
    | Write(ok: bool, noise: seq<Bytes>)
    | Report
    | Redraw(frame: Frame)
    | Reconfigure(wanted: bool)

  // ---------------------------------------------------------------- the display task

  function NoHashes(): seq<Option<nat>> {
    seq(MAX_SEGMENTS, (i: nat) => None)
  }

  /** `I2cWorker::submit(mem::replace(&mut self.prep, spare))`, with the `expect` on `spare`. */
  function Submit<Frame>(s: State<Frame>, next: Pc): State<Frame> {
    match s.oled.spare
    case None => s.(task := s.task.(pc := Panicked))
    case Some(spare) =>
      s.(i2c := s.i2c.(jobs := s.i2c.jobs + [s.oled.prep]),
         oled := s.oled.(prep := spare, spare := None),
         task := s.task.(pc := next))
  }

  function StartInit<Frame>(d: Display<Frame>, s: State<Frame>, first: bool): State<Frame> {
    Submit(s.(oled := s.oled.(sent := NoHashes(), prep := d.initBytes)),
           Sending(if first then FirstInit else Reinit, false))
  }

  function StartOff<Frame>(d: Display<Frame>, s: State<Frame>): State<Frame> {
    Submit(s.(oled := s.oled.(prep := d.offBytes)), Sending(SwitchOff, false))
  }

  /** The poll of `I2cWorker::complete` that finds nothing: registers the waker and yields. */
  function Park<Frame>(s: State<Frame>, parkedPc: Pc): State<Frame> {
    s.(i2c := s.i2c.(waker := true, runnable := false), task := s.task.(pc := parkedPc))
  }

  /** The poll that finds the finished write: takes it and gets the buffer back. */
  function TakeBack<Frame>(s: State<Frame>, buf: Bytes): State<Frame> {
    s.(i2c := s.i2c.(done := None), oled := s.oled.(spare := Some(buf)))
  }

  function AfterCommand<Frame>(s: State<Frame>, what: Command, ok: bool): State<Frame> {
    match what
    case FirstInit =>
      s.(task := s.task.(initialized := ok, force := true, pc := Top), past := s.past.(up := Some(ok)))
    case Reinit => s.(task := s.task.(pc := Top))
    case SwitchOff => s.(task := s.task.(pc := Gone))
  }

  /** The head of `run_display`'s loop. */
  function LoopHead<Frame>(s: State<Frame>): State<Frame> {
    if !s.wanted then s.(task := s.task.(pc := if s.task.initialized then Off else Gone))
    else if !s.task.initialized || !(s.dirty || s.task.force) then s.(task := s.task.(pc := Idle))
    else
      s.(task := s.task.(force := false, attempt := 1, pc := Flushing(0, None)),
         dirty := false,
         past := s.past.(prepared := [], okWrites := seq(MAX_SEGMENTS, (i: nat) => 0), failures := 0))
  }

  function SubmitPage<Frame>(d: Display<Frame>, s: State<Frame>, page: nat): State<Frame>
    requires page < |s.oled.sent|
  {
    Submit(s.(oled := s.oled.(sent := s.oled.sent[page := Some(d.hash(s.oled.prep))])), Flushing(page + 1, Some(page)))
  }

  function FlushOk<Frame>(s: State<Frame>): State<Frame> {
    s.(past := s.past.(lastOk := true), task := s.task.(pc := Top))
  }

  /** `prepare` has filled `prep` with a page. */
  function Prepared<Frame>(s: State<Frame>, buf: Bytes): State<Frame> {
    s.(oled := s.oled.(prep := buf), past := s.past.(prepared := s.past.prepared + [buf]))
  }

  /** One iteration of `flush`'s loop, or what follows the loop. */
  function FlushStep<Frame>(d: Display<Frame>, s: State<Frame>, page: nat, out: Option<nat>): State<Frame>
    requires d.pages <= |s.oled.sent|
  {
    if page < d.pages then
      var buf := Segment(d, s.frame, page);
      var t := Prepared(s, buf);
      if s.oled.sent[page] == Some(d.hash(buf)) then t.(task := t.task.(pc := Flushing(page + 1, out)))
      else match out
        case Some(prev) => t.(task := t.task.(pc := Awaiting(page, prev, false, false)))
        case None => SubmitPage(d, t, page)
    else match out
      case Some(prev) => s.(task := s.task.(pc := Awaiting(page, prev, true, false)))
      case None => FlushOk(s)
  }

  /** `OledDisplay::complete` once its write is back, and what `flush` does next. */
  function AfterPage<Frame>(d: Display<Frame>, s: State<Frame>, page: nat, prev: nat, last: bool, ok: bool)
      : State<Frame>
    requires prev < |s.oled.sent| && (!last ==> page < |s.oled.sent|)
  {
    if !ok then
      s.(oled := s.oled.(sent := s.oled.sent[prev := None]), task := s.task.(pc := Retry),
         past := s.past.(failures := s.past.failures + 1))
    else if last then FlushOk(s)
    else SubmitPage(d, s, page)
  }

  function AfterFailure<Frame>(s: State<Frame>): State<Frame> {
    if s.task.attempt < MAX_ATTEMPTS
    then s.(task := s.task.(attempt := s.task.attempt + 1, pc := Flushing(0, None)), past := s.past.(prepared := []))
    else s.(past := s.past.(lastOk := false), task := s.task.(pc := Init(false)))
  }

  /** The display task runs from one point where it can be observed to the next. */
  function ExecStep<Frame>(d: Display<Frame>, s: State<Frame>): Option<State<Frame>>
    requires d.pages <= |s.oled.sent|
  {
    match s.task.pc
    case Init(first) => Some(StartInit(d, s, first))
    case Sending(what, parked) =>
      if parked && !s.i2c.runnable then None
      else (match s.i2c.done
            case None => Some(Park(s, Sending(what, true)))
            case Some((buf, ok)) => Some(AfterCommand(TakeBack(s, buf), what, ok)))
    case Top => Some(LoopHead(s))
    case Idle => Some(s.(task := s.task.(pc := Top)))
    case Flushing(page, out) => Some(FlushStep(d, s, page, out))
    case Awaiting(page, prev, last, parked) =>
      if parked && !s.i2c.runnable then None
      else (match s.i2c.done
            case None => Some(Park(s, Awaiting(page, prev, last, true)))
            case Some((buf, ok)) =>
              if prev < |s.oled.sent| && (last || page < |s.oled.sent|)
              then Some(AfterPage(d, TakeBack(s, buf), page, prev, last, ok))
              else Some(s.(task := s.task.(pc := Panicked))))
    case Retry => Some(AfterFailure(s))
    case Off => Some(StartOff(d, s))
    case Gone => None
    case Panicked => None
  }

  // ---------------------------------------------------------------- the other parties

  /** The other tasks of the executor only run while the display task has yielded. */
  predicate Yielded(pc: Pc) {
    pc.Idle? || pc.Retry? || pc.Gone? || (pc.Sending? && pc.parked) || (pc.Awaiting? && pc.parked)
  }

  /**
   The display RAM after a write: a page write that succeeded installs its data, one that failed
   leaves the addressed page arbitrary; an init leaves all of it arbitrary.
   */
  function RamAfter<Frame>(d: Display<Frame>, panel: seq<Bytes>, buf: Bytes, ok: bool, noise: seq<Bytes>)
      : (ram: seq<Bytes>)
    requires |noise| == |panel|
    ensures |ram| == |panel|
  {
    match d.effect(buf)
    case Scrambles => noise
    case Keeps => panel
    case Writes(p, data) => if p < |panel| then panel[p := if ok then data else noise[p]] else panel
  }

  function CountWrite<Frame>(d: Display<Frame>, okWrites: seq<nat>, buf: Bytes, ok: bool): (counts: seq<nat>)
    ensures |counts| == |okWrites|
  {
    match d.effect(buf)
    case Writes(p, _) => if ok && p < |okWrites| then okWrites[p := okWrites[p] + 1] else okWrites
    case _ => okWrites
  }

  /** The worker thread takes a buffer from its queue. */
  function Received<Frame>(s: State<Frame>): State<Frame>
    requires |s.i2c.jobs| > 0
  {
    s.(i2c := s.i2c.(worker := Writing(s.i2c.jobs[0]), jobs := s.i2c.jobs[1..]))
  }

  /** The worker thread's I2C transaction is over. */
  function Wrote<Frame>(d: Display<Frame>, s: State<Frame>, ok: bool, noise: seq<Bytes>): State<Frame>
    requires s.i2c.worker.Writing? && |noise| == |s.panel|
  {
    var buf := s.i2c.worker.buf;
    s.(i2c := s.i2c.(worker := Written(buf, ok)),
       panel := RamAfter(d, s.panel, buf, ok, noise),
       past := s.past.(okWrites := CountWrite(d, s.past.okWrites, buf, ok), written := Some(buf)))
  }

  /** Under the completion's mutex: the buffer is handed back, and whoever waits is woken. */
  function Reported<Frame>(s: State<Frame>): State<Frame>
    requires s.i2c.worker.Written?
  {
    s.(i2c := I2c(s.i2c.jobs, Resting, Some((s.i2c.worker.buf, s.i2c.worker.ok)), false,
                  s.i2c.runnable || s.i2c.waker))
  }

  function Apply<Frame>(d: Display<Frame>, s: State<Frame>, step: Step<Frame>): Option<State<Frame>> {
    match step
    case Exec => if d.pages <= |s.oled.sent| then ExecStep(d, s) else None
    case Receive => if s.i2c.worker == Resting && |s.i2c.jobs| > 0 then Some(Received(s)) else None
    case Write(ok, noise) =>
      if s.i2c.worker.Writing? && |noise| == |s.panel| then Some(Wrote(d, s, ok, noise)) else None
    case Report => if s.i2c.worker.Written? then Some(Reported(s)) else None
    case Redraw(frame) => if Yielded(s.task.pc) then Some(s.(frame := frame, dirty := true)) else None
    case Reconfigure(wanted) => if Yielded(s.task.pc) then Some(s.(wanted := wanted)) else None
  }

  /** `run_display` starting on an idle worker, whatever the panel shows and the flags say. */
  predicate Initial<Frame>(d: Display<Frame>, s: State<Frame>) {
    && s.task.pc == Init(true)
    && s.oled.spare.Some? && |s.oled.sent| == MAX_SEGMENTS
    && (forall p | 0 <= p < MAX_SEGMENTS :: s.oled.sent[p] == None)
    && s.i2c.jobs == [] && s.i2c.worker == Resting && s.i2c.done == None && !s.i2c.waker
    && |s.panel| == d.pages && |s.past.okWrites| == MAX_SEGMENTS && s.past.prepared == []
    && !s.past.lastOk && s.past.up == None && !s.task.initialized
  }

  /** The state a sequence of steps leads to, `None` if one of them was not enabled. */
  function Run<Frame>(d: Display<Frame>, s: State<Frame>, steps: seq<Step<Frame>>): Option<State<Frame>>
    decreases |steps|
  {
    if steps == [] then Some(s)
    else match Apply(d, s, steps[0])
      case None => None
      case Some(t) => Run(d, t, steps[1..])
  }

  /** `t` can be reached from a fresh `run_display`. */
  ghost predicate Reachable<Frame(!new)>(d: Display<Frame>, t: State<Frame>) {
    exists s: State<Frame>, steps: seq<Step<Frame>> :: Initial(d, s) && Run(d, s, steps) == Some(t)
  }
}
