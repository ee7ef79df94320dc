/** One job as a transition system over events: the countdown goroutine, any number of Stop calls
    and any number of Ticks readers, interleaved at every point where no lock is held
    (internal/worker/job.go). A section under the mutex is one step. */
module JobProtocol {
  import opened Wrappers
  import opened Ticks
  import opened JobState

  /** Program points of countdown. recovering tells a finish called by the deferred recovery. */
  datatype Writer =
    | Starting
    | Announced
    | LoopHead(current: int)
    | Selecting(current: int)
    | Fired(current: int, tick: Tick)
    | Finishing(terminal: Status, last: Tick, recovering: bool)
    | Auditing(terminal: Status, recovering: bool)
    | Recovering(message: string)
    | Closing
    | Releasing
    | Exited

  /** What the scheduler, the timer or a fault decides for the writer. A panic inside the audit
      call may come before or after the record is written. */
  datatype WriterChoice = Proceed | Timer | CancelSeen | Panic(message: string, recorded: bool)

  /** A Stop call made by a client or by a registry shutdown. */
  datatype Caller = Client(n: nat) | Closer(n: nat)

  datatype StopPoint = BeforeCancel | AwaitingFinish | BeforeStatus | Answered(status: Status)

  datatype Exit = SentinelSeen | ConsumerStopped | ContextEnded

  datatype ReaderPoint = AtLock | Yielding | Waiting | Returned(exit: Exit)

  /** A Ticks iteration. The slice it holds is [lo, cursor) of the shared buffer, read without the
      lock at lo + next; batch is what that slice held when it was taken. */
  datatype Reader = Reader(
    point: ReaderPoint, cursor: nat, lo: nat, next: nat, batch: seq<Tick>, wait: nat,
    yielded: seq<Tick>, contextDone: bool, snapshots: nat)

  const NEW_READER: Reader := Reader(AtLock, 0, 0, 0, [], 0, [], false, 0)

  /** Take locks and slices, hands one tick over, leaves a drained batch, wakes or leaves the select. */
  datatype ReaderChoice = Take | Deliver(accepted: bool) | Drained | Wake | Leave

  datatype State = State(
    id: string, count: int, now: int, startedAt: int,
    cause: Option<Cause>, requested: bool,
    shared: Shared, writer: Writer, finished: bool, refinished: bool, audits: seq<Status>,
    stops: map<Caller, StopPoint>, readers: map<nat, Reader>)

  datatype Event =
    | Write(choice: WriterChoice)
    | Clock(instant: int)
    | ParentDone(cause: Cause)
    | CallStop(caller: Caller)
    | StopStep(caller: Caller)
    | Open(reader: nat)
    | EndContext(reader: nat)
    | Read(reader: nat, act: ReaderChoice)

  datatype NewJobError = InvalidCount | InvalidMeanInterval

  function Initial(id: string, count: int, now: int): State {
    State(id, count, now, now, None, false, FRESH, Starting, false, false, [], map[], map[])
  }

  predicate ValidCount(count: int) {
    1 <= count <= MAX_COUNT
  }

  /** NewJob: the arguments it turns away. Any others start a job in its Initial state. */
  function Rejection(count: int, meanInterval: int): Option<NewJobError> {
    if count <= 0 || count > MAX_COUNT then Some(InvalidCount)
    else if meanInterval <= 0 then Some(InvalidMeanInterval)
    else None
  }

  // The writer.

  /** A panic can surface wherever the writer holds no lock and is not already recovering. */
  predicate MayPanic(w: Writer) {
    match w
    case Starting => true
    case Announced => true
    case LoopHead(_) => true
    case Selecting(_) => true
    case Fired(_, _) => true
    case Finishing(_, _, recovering) => !recovering
    case Auditing(_, recovering) => !recovering
    case _ => false
  }

  predicate WriterEnabled(s: State, choice: WriterChoice) {
    match choice
    case Panic(_, recorded) => MayPanic(s.writer) && (recorded ==> s.writer.Auditing?)
    case Timer => s.writer.Selecting?
    case CancelSeen => s.writer.Selecting? && s.cause.Some?
    case Proceed => !s.writer.Selecting? && !s.writer.Exited?
  }

  /** What the writer alone changes. */
  ghost predicate WriterFrame(before: State, after: State) {
    && after.id == before.id && after.count == before.count && after.now == before.now
    && after.requested == before.requested && (before.finished ==> after.finished)
    && after.stops == before.stops && after.readers == before.readers
  }

  /** The writer's next statement, wherever it is not blocked in its select. */
  function Proceeding(s: State): (after: State)
    requires WriterEnabled(s, Proceed)
    ensures WriterFrame(s, after)
  {
    match s.writer
    case Starting =>
      s.(shared := s.shared.ReportProgress(Progress(0, s.count)), writer := Announced)
    case Announced =>
      s.(startedAt := s.now, writer := LoopHead(s.count - 1))
    case LoopHead(current) =>
      s.(writer := if current >= 0 then Selecting(current) else Closing)
    case Fired(current, tick) =>
      if tick.IsTerminal() then
        s.(writer := Finishing(Completed, tick, false))
      else
        s.(shared := s.shared.ReportProgress(tick), writer := LoopHead(current - 1))
    case Finishing(terminal, last, recovering) =>
      var (shared, won) := s.shared.SetTerminal(terminal, last);
      s.(shared := shared, writer := if won then Auditing(terminal, recovering) else Closing)
    case Auditing(terminal, _) =>
      s.(audits := s.audits + [terminal], writer := Closing)
    case Recovering(message) =>
      s.(writer := Finishing(Failed, PanicError(message), true))
    case Closing =>
      s.(finished := true, refinished := s.refinished || s.finished, writer := Releasing)
    case Releasing =>
      s.(cause := Cancel(s.cause, Canceled), writer := Exited)
  }

  function WriterStep(s: State, choice: WriterChoice): (after: State)
    requires WriterEnabled(s, choice)
    ensures WriterFrame(s, after)
  {
    match choice
    case Panic(message, recorded) =>
      s.(writer := Recovering(message),
         audits := if recorded then s.audits + [s.writer.terminal] else s.audits)
    case Timer =>
      s.(writer := Fired(s.writer.current, Progress(s.now - s.startedAt, s.writer.current)))
    case CancelSeen =>
      s.(writer := Finishing(Stopped, StoppedTick(s.cause.value), false))
    case Proceed =>
      Proceeding(s)
  }

  /** A context keeps the first cause it was ended with. */
  function Cancel(cause: Option<Cause>, why: Cause): Option<Cause> {
    if cause.Some? then cause else Some(why)
  }

  // Stop.

  predicate StopEnabled(s: State, caller: Caller) {
    && caller in s.stops
    && match s.stops[caller] {
      case BeforeCancel => true
      case AwaitingFinish => s.finished
      case BeforeStatus => true
      case Answered(_) => false
    }
  }

  function Stopping(s: State, caller: Caller): State
    requires StopEnabled(s, caller)
  {
    match s.stops[caller]
    case BeforeCancel =>
      s.(cause := Cancel(s.cause, Canceled), requested := true,
         stops := s.stops[caller := AwaitingFinish])
    case AwaitingFinish =>
      s.(stops := s.stops[caller := BeforeStatus])
    case BeforeStatus =>
      s.(stops := s.stops[caller := Answered(s.shared.status)])
  }

  // Ticks.

  predicate ReaderEnabled(sh: Shared, r: Reader, choice: ReaderChoice) {
    match choice
    case Take => r.point.AtLock? && r.cursor <= |sh.ticks|
    case Deliver(_) => r.point.Yielding? && r.lo + r.next < r.cursor <= |sh.ticks|
    case Drained => r.point.Yielding? && r.lo + r.next == r.cursor
    case Wake => r.point.Waiting? && r.wait in sh.closed
    case Leave => r.point.Waiting? && r.contextDone
  }

  function ReaderStep(sh: Shared, r: Reader, choice: ReaderChoice): Reader
    requires ReaderEnabled(sh, r, choice)
  {
    match choice
    case Take =>
      r.(point := Yielding, lo := r.cursor, cursor := |sh.ticks|, next := 0,
         batch := sh.ticks[r.cursor..], wait := sh.changed, snapshots := r.snapshots + 1)
    case Deliver(accepted) =>
      var tick := sh.ticks[r.lo + r.next];
      r.(yielded := r.yielded + [tick], next := r.next + 1,
         point := if !accepted then Returned(ConsumerStopped)
                  else if tick.IsTerminal() then Returned(SentinelSeen)
                  else Yielding)
    case Drained =>
      r.(point := if r.cursor > r.lo then AtLock else Waiting)
    case Wake =>
      r.(point := AtLock)
    case Leave =>
      r.(point := Returned(ContextEnded))
  }

  // The whole job.

  predicate Enabled(s: State, event: Event) {
    match event
    case Write(choice) => WriterEnabled(s, choice)
    case Clock(instant) => s.now <= instant
    case ParentDone(_) => true
    case CallStop(caller) => caller !in s.stops
    case StopStep(caller) => StopEnabled(s, caller)
    case Open(reader) => reader !in s.readers
    case EndContext(reader) => reader in s.readers
    case Read(reader, act) => reader in s.readers && ReaderEnabled(s.shared, s.readers[reader], act)
  }

  function Apply(s: State, event: Event): State
    requires Enabled(s, event)
  {
    match event
    case Write(choice) => WriterStep(s, choice)
    case Clock(instant) => s.(now := instant)
    case ParentDone(cause) => s.(cause := Cancel(s.cause, cause), requested := true)
    case CallStop(caller) => s.(stops := s.stops[caller := BeforeCancel])
    case StopStep(caller) => Stopping(s, caller)
    case Open(reader) => s.(readers := s.readers[reader := NEW_READER])
    case EndContext(reader) => s.(readers := s.readers[reader := s.readers[reader].(contextDone := true)])
    case Read(reader, act) =>
      s.(readers := s.readers[reader := ReaderStep(s.shared, s.readers[reader], act)])
  }

  /** A run: the states a job goes through and the events between them. */
  datatype Run = Run(states: seq<State>, events: seq<Event>)

  ghost predicate StepAt(run: Run, i: nat)
    requires i < |run.events| && i + 1 < |run.states|
  {
    Enabled(run.states[i], run.events[i]) && run.states[i + 1] == Apply(run.states[i], run.events[i])
  }

  ghost predicate IsPath(run: Run) {
    && |run.states| == |run.events| + 1
    && forall i: nat :: i < |run.events| ==> StepAt(run, i)
  }

  ghost predicate StartsAt(run: Run, count: int) {
    && |run.states| > 0
    && run.states[0] == Initial(run.states[0].id, count, run.states[0].now)
  }

  /** A run of a job that NewJob accepted. */
  ghost predicate IsRun(run: Run) {
    && IsPath(run)
    && StartsAt(run, run.states[0].count)
    && ValidCount(run.states[0].count)
  }
}
