/** What every run of the server comes to: nothing Serve waits for can wedge, and what it waits for
    is bounded (internal/server/server.go). */
module ServerProgress {
  import opened Wrappers
  import opened ServerProtocol
  import opened ServerInvariant
  import opened ServerTheorems
  import Job = JobProtocol
  import JobInv = JobInvariant
  import JobState
  import JobTheorems
  import Ticks

  // What Serve waits for.

  /** The Stop that Serve's Shutdown made of a job has no answer yet. */
  predicate StopPending(s: State, k: nat) {
    k < |s.jobs| && HasStop(s.jobs[k], BY_SERVE) && !StopDone(s.jobs[k], BY_SERVE)
  }

  /** The steps of Serve's own Shutdown, and those its Stop calls wait for: their own, and those of the
      workers they stop. */
  predicate OfServesShutdown(s: State, event: Event) {
    match event
    case LockShutdown(call) => call == BY_SERVE
    case SpawnStop(call, _) => call == BY_SERVE
    case ReturnShutdown(call) => call == BY_SERVE
    case JobMoves(k, inner) =>
      StopPending(s, k) && (inner.Write? || inner == Job.StopStep(Job.Closer(BY_SERVE)))
    case JobsAreStopped => true
    case _ => false
  }

  /** What GracefulStop waits for: the lookups of admitted handlers, and the streams. Once the transport
      is cut it may return before they do, but nothing here counts on that. */
  predicate OfGracefulStop(s: State, event: Event) {
    match event
    case OpenStream(_) => true
    case JobMoves(_, inner) => inner.Read?
    case GracefulStopReturns => HandlersReturned(s)
    case _ => false
  }

  /** The steps Serve waits for where it stands. */
  predicate Awaited(s: State, event: Event) {
    match s.serve
    case Listening => false
    case Done(_) => false
    case Cutting(_) => event.CutTransport?
    case Collecting(_) => event.TransportEnds? || event.CollectEnd?
    case _ =>
      match s.drain
      case NotStarted => false
      case StoppingJobs => OfServesShutdown(s, event)
      case InGracefulStop => OfGracefulStop(s, event)
      case Stopped => event.SeeStopped? || event.SeeStoppedAfterCut?
  }

  /** Some step Serve waits for is open. */
  ghost predicate GoesOn(s: State) {
    exists event :: Enabled(s, event) && Awaited(s, event)
  }

  // Nothing wedges.

  lemma Goes(s: State, event: Event)
    requires Enabled(s, event) && Awaited(s, event)
    ensures GoesOn(s)
  {
  }

  lemma PendingStopGoesOn(s: State, k: nat)
    requires s.serve.Draining? || s.serve.AwaitingDrain?
    requires s.drain.StoppingJobs? && StopPending(s, k) && JobInv.Inv(s.jobs[k])
    ensures GoesOn(s)
  {
    var job, caller := s.jobs[k], Job.Closer(BY_SERVE);
    var inner := if Job.StopEnabled(job, caller) then Job.StopStep(caller)
                 else if job.writer.Selecting? then Job.Write(Job.Timer)
                 else Job.Write(Job.Proceed);
    assert JobInv.StopInv(job, job.stops[caller]);
    assert Job.Enabled(job, inner);
    Goes(s, JobMoves(k, inner));
  }

  /** The steps of a Shutdown call, and those its Stop calls wait for. */
  predicate OfShutdownCall(s: State, event: Event, call: nat) {
    match event
    case LockShutdown(c) => c == call
    case SpawnStop(c, _) => c == call
    case ReturnShutdown(c) => c == call
    case JobMoves(k, inner) =>
      && k < |s.jobs| && HasStop(s.jobs[k], call) && !StopDone(s.jobs[k], call)
      && (inner.Write? || inner == Job.StopStep(Job.Closer(call)))
    case _ => false
  }

  lemma StopOfCallMoves(s: State, k: nat, call: nat) returns (inner: Job.Event)
    requires k < |s.jobs| && JobInv.Inv(s.jobs[k]) && HasStop(s.jobs[k], call) && !StopDone(s.jobs[k], call)
    ensures Enabled(s, JobMoves(k, inner)) && OfShutdownCall(s, JobMoves(k, inner), call)
  {
    var job, caller := s.jobs[k], Job.Closer(call);
    inner := if Job.StopEnabled(job, caller) then Job.StopStep(caller)
             else if job.writer.Selecting? then Job.Write(Job.Timer)
             else Job.Write(Job.Proceed);
    assert JobInv.StopInv(job, job.stops[caller]);
    assert Job.Enabled(job, inner);
  }

  lemma CallGoes(s: State, call: nat) returns (event: Event)
    requires JobsInv(s.jobs) && call in s.shutdowns && !s.shutdowns[call].ShutdownDone?
    requires ShutdownInv(s.registry.accepting, s.jobs, call, s.shutdowns[call])
    ensures Enabled(s, event) && OfShutdownCall(s, event, call)
  {
    var point := s.shutdowns[call];
    if point.BeforeLock? {
      event := LockShutdown(call);
    } else if k :| k in point.left {
      event := SpawnStop(call, k);
    } else if k :| k in point.spawned && !StopDone(s.jobs[k], call) {
      var inner := StopOfCallMoves(s, k, call);
      event := JobMoves(k, inner);
    } else {
      event := ReturnShutdown(call);
    }
  }

  /** No Shutdown call wedges, whoever made it: until it returns a step of it, or one that a Stop of it
      waits for, is open. */
  lemma ShutdownNeverWedges(run: Run, i: nat, call: nat)
    requires IsRun(run) && i < |run.states|
    requires call in run.states[i].shutdowns && !run.states[i].shutdowns[call].ShutdownDone?
    ensures exists event :: Enabled(run.states[i], event) && OfShutdownCall(run.states[i], event, call)
  {
    InvHolds(run, i);
    assert ShutdownInv(run.states[i].registry.accepting, run.states[i].jobs, call, run.states[i].shutdowns[call]);
    var event := CallGoes(run.states[i], call);
  }

  lemma SpawningGoesOn(s: State)
    requires s.serve.Draining? || s.serve.AwaitingDrain?
    requires s.drain.StoppingJobs? && JobsInv(s.jobs)
    requires BY_SERVE in s.shutdowns && s.shutdowns[BY_SERVE].Spawning?
    requires ShutdownInv(s.registry.accepting, s.jobs, BY_SERVE, s.shutdowns[BY_SERVE])
    ensures GoesOn(s)
  {
    var point := s.shutdowns[BY_SERVE];
    if point.left != {} {
      var k :| k in point.left;
      Goes(s, SpawnStop(BY_SERVE, k));
    } else if StopsAnswered(s.jobs, point.spawned, BY_SERVE) {
      Goes(s, ReturnShutdown(BY_SERVE));
    } else {
      var k :| k in point.spawned && !StopDone(s.jobs[k], BY_SERVE);
      PendingStopGoesOn(s, k);
    }
  }

  lemma StoppingGoesOn(s: State)
    requires Inv(s) && s.drain.StoppingJobs?
    requires s.serve.Draining? || s.serve.AwaitingDrain?
    ensures GoesOn(s)
  {
    match s.shutdowns[BY_SERVE]
    case BeforeLock => Goes(s, LockShutdown(BY_SERVE));
    case ShutdownDone => Goes(s, JobsAreStopped);
    case Spawning(_, _) => SpawningGoesOn(s);
  }

  /** A handler that was admitted can always look its job up. */
  lemma AdmittedMoves(s: State, handler: nat)
    requires RegistryInv(s) && HandlersInv(s.handlers, s.jobs) && IsAdmitted(s, handler)
    ensures Enabled(s, OpenStream(handler))
  {
    if Requested(s, handler).Some? {
      IsTheOnlyOne(s, s.handlers[handler].agent, s.handlers[handler].id);
    }
  }

  /** A stream that has not returned has a step once its job has finished. */
  lemma LiveStreamMoves(s: State, k: nat, r: nat) returns (act: Job.ReaderChoice)
    requires k < |s.jobs| && JobInv.Inv(s.jobs[k]) && s.jobs[k].shared.status != Ticks.Running
    requires r in s.jobs[k].readers && !s.jobs[k].readers[r].point.Returned?
    ensures Enabled(s, JobMoves(k, Job.Read(r, act)))
  {
    var job := s.jobs[k];
    JobTheorems.DrainEnabled(job.count, job.shared, job.readers[r]);
    act :| Job.ReaderEnabled(job.shared, job.readers[r], act);
  }

  lemma LiveStreamGoesOn(s: State, k: nat, r: nat)
    requires s.drain.InGracefulStop?
    requires s.serve.Draining? || s.serve.AwaitingDrain?
    requires JobsInv(s.jobs) && ShutdownInv(s.registry.accepting, s.jobs, BY_SERVE, ShutdownDone)
    requires k < |s.jobs| && r in s.jobs[k].readers && !s.jobs[k].readers[r].point.Returned?
    ensures GoesOn(s)
  {
    StopDoneMeansTerminal(s.jobs[k], BY_SERVE);
    var act := LiveStreamMoves(s, k, r);
    Goes(s, JobMoves(k, Job.Read(r, act)));
  }

  lemma GracefulStopGoesOn(s: State)
    requires RegistryInv(s) && JobsInv(s.jobs) && HandlersInv(s.handlers, s.jobs) && s.drain.InGracefulStop?
    requires ShutdownInv(s.registry.accepting, s.jobs, BY_SERVE, ShutdownDone)
    requires s.serve.Draining? || s.serve.AwaitingDrain?
    ensures GoesOn(s)
  {
    if h: nat :| IsAdmitted(s, h) {
      AdmittedMoves(s, h);
      Goes(s, OpenStream(h));
    } else if k, r :| 0 <= k < |s.jobs| && r in s.jobs[k].readers && !s.jobs[k].readers[r].point.Returned? {
      LiveStreamGoesOn(s, k, r);
    } else {
      Goes(s, GracefulStopReturns);
    }
  }

  lemma ServeGoesOn(s: State)
    requires ServeInv(s) && !s.serve.Listening? && !s.serve.Done?
    requires s.drain.StoppingJobs? || s.drain.InGracefulStop? ==> s.serve.Cutting?
    ensures GoesOn(s)
  {
    match s.serve
    case Draining(_) => Goes(s, SeeStopped);
    case Cutting(_) => Goes(s, CutTransport);
    case AwaitingDrain(_) => Goes(s, SeeStoppedAfterCut);
    case Collecting(_) =>
      if s.served.Some? {
        Goes(s, CollectEnd);
      } else {
        Goes(s, TransportEnds(CleanEnd));
      }
  }

  lemma Drains(s: State)
    requires ServeInv(s) && !s.serve.Listening? && !s.serve.Done? && !s.serve.Cutting? && !s.drain.Stopped?
    ensures s.serve.Draining? || s.serve.AwaitingDrain?
    ensures s.drain.StoppingJobs? || s.drain.InGracefulStop?
  {
  }

  /** A shutdown never wedges: from its start to the return of Serve a step that Serve waits for is
      always open, without waiting for the grace to expire. */
  lemma ServeNeverWedges(run: Run, i: nat)
    requires IsRun(run) && i < |run.states|
    requires !run.states[i].serve.Listening? && !run.states[i].serve.Done?
    ensures exists event :: Enabled(run.states[i], event) && Awaited(run.states[i], event)
  {
    InvHolds(run, i);
    var s := run.states[i];
    if s.serve.Cutting? || s.drain.Stopped? {
      ServeGoesOn(s);
    } else {
      Drains(s);
      if s.drain.StoppingJobs? {
        StoppingGoesOn(s);
      } else {
        assert ShutdownInv(s.registry.accepting, s.jobs, BY_SERVE, s.shutdowns[BY_SERVE]);
        GracefulStopGoesOn(s);
      }
    }
    assert GoesOn(s);
  }

  // How much there is to wait for.

  /** Who takes a step. */
  datatype Process = OfServer | OfJob(job: nat) | OfHandler(handler: nat)

  function Actor(event: Event): Process {
    match event
    case JobMoves(k, inner) => if inner.Read? then OfHandler(inner.reader) else OfJob(k)
    case SpawnStop(_, k) => OfJob(k)
    case OpenStream(handler) => OfHandler(handler)
    case _ => OfServer
  }

  const SERVER_STEPS: nat := 12
  const JOB_STEPS: nat := 3 * Ticks.MAX_COUNT + 16
  const HANDLER_STEPS: nat := 6 * (Ticks.MAX_COUNT + 1) + 5

  function StopLeft(job: Job.State): nat {
    if !HasStop(job, BY_SERVE) then 4
    else
      match job.stops[Job.Closer(BY_SERVE)]
      case BeforeCancel => 3
      case AwaitingFinish => 2
      case BeforeStatus => 1
      case Answered(_) => 0
  }

  function JobLeft(job: Job.State): int {
    JobTheorems.WriterMeasure(job.writer, job.count) + StopLeft(job)
  }

  function ServeLeft(point: ServePoint): nat {
    match point
    case Listening => 5
    case Draining(_) => 4
    case Cutting(_) => 3
    case AwaitingDrain(_) => 2
    case Collecting(_) => 1
    case Done(_) => 0
  }

  function DrainLeft(point: DrainPoint): nat {
    match point
    case NotStarted => 3
    case StoppingJobs => 2
    case InGracefulStop => 1
    case Stopped => 0
  }

  function ShutdownLeft(shutdowns: map<nat, ShutdownPoint>): nat {
    if BY_SERVE !in shutdowns then 3
    else
      match shutdowns[BY_SERVE]
      case BeforeLock => 2
      case Spawning(_, _) => 1
      case ShutdownDone => 0
  }

  function ServerLeft(s: State): nat {
    ServeLeft(s.serve) + DrainLeft(s.drain) + ShutdownLeft(s.shutdowns) + (if s.served.None? then 1 else 0)
  }

  function StreamLeft(jobs: seq<Job.State>, k: nat, r: nat): int {
    if k < |jobs| && r in jobs[k].readers
    then JobTheorems.ReaderLeft(jobs[k].count, jobs[k].shared, jobs[k].readers[r])
    else 0
  }

  /** How many of the steps Serve can wait for a process has left at most. */
  function Left(s: State, p: Process): int {
    match p
    case OfServer => ServerLeft(s)
    case OfJob(k) => if k < |s.jobs| then JobLeft(s.jobs[k]) else JOB_STEPS
    case OfHandler(h) =>
      if h !in s.handlers || s.handlers[h].Admitted? then HANDLER_STEPS
      else if s.handlers[h].NotFound? then 0
      else StreamLeft(s.jobs, s.handlers[h].job, h)
  }

  function Limit(p: Process): nat {
    match p
    case OfServer => SERVER_STEPS
    case OfJob(_) => JOB_STEPS
    case OfHandler(_) => HANDLER_STEPS
  }

  predicate Counts(s: State, event: Event, p: Process) {
    Awaited(s, event) && Actor(event) == p
  }

  lemma JobEventsAreNotServers(s: State, event: Event)
    requires Enabled(s, event) && OfJobs(event)
    ensures ServerLeft(Apply(s, event)) == ServerLeft(s) && !Counts(s, event, OfServer)
  {
  }

  lemma ShutdownLeftFalls(s: State, event: Event)
    requires Enabled(s, event) && OfShutdown(event)
    ensures ServerLeft(Apply(s, event)) + (if Counts(s, event, OfServer) then 1 else 0) <= ServerLeft(s)
  {
  }

  lemma ServerLeftFalls(s: State, event: Event)
    requires ServeInv(s) && Enabled(s, event)
    ensures ServerLeft(Apply(s, event)) + (if Counts(s, event, OfServer) then 1 else 0) <= ServerLeft(s)
  {
    if OfJobs(event) {
      JobEventsAreNotServers(s, event);
    } else if OfShutdown(event) {
      ShutdownLeftFalls(s, event);
    }
  }

  /** The steps of a job that Serve can wait for. */
  predicate OfJobItself(inner: Job.Event) {
    || inner.Write?
    || inner == Job.StopStep(Job.Closer(BY_SERVE)) || inner == Job.CallStop(Job.Closer(BY_SERVE))
  }

  lemma StopLeftFalls(job: Job.State, inner: Job.Event)
    requires Job.Enabled(job, inner)
    ensures StopLeft(Job.Apply(job, inner)) + (if OfJobItself(inner) && !inner.Write? then 1 else 0) <= StopLeft(job)
  {
  }

  lemma JobLeftFalls(job: Job.State, inner: Job.Event)
    requires JobInv.Inv(job) && Job.Enabled(job, inner)
    ensures JobLeft(Job.Apply(job, inner)) + (if OfJobItself(inner) then 1 else 0) <= JobLeft(job)
  {
    StopLeftFalls(job, inner);
    JobTheorems.WriterEventDown(job, inner);
    JobTheorems.KeepsId(job, inner);
  }

  lemma CountedJobStep(s: State, event: Event, k: nat)
    requires Enabled(s, event) && Counts(s, event, OfJob(k))
    ensures k < |s.jobs| && Behind(s, event, k).Some? && OfJobItself(Behind(s, event, k).value)
  {
  }

  lemma OfJobFalls(s: State, event: Event, k: nat)
    requires Inv(s) && Enabled(s, event)
    ensures Left(Apply(s, event), OfJob(k)) + (if Counts(s, event, OfJob(k)) then 1 else 0) <= Left(s, OfJob(k))
  {
    if Counts(s, event, OfJob(k)) {
      CountedJobStep(s, event, k);
    }
    if k < |s.jobs| {
      MovesByItsOwn(s, event, k);
      var inner := Behind(s, event, k);
      if inner.Some? {
        JobLeftFalls(s.jobs[k], inner.value);
      }
    } else if event.Create? {
      BeginsFresh(s, event.agent, event.count, event.now);
    }
  }

  predicate IsReadBy(inner: Option<Job.Event>, h: nat) {
    inner.Some? && inner.value.Read? && inner.value.reader == h
  }

  lemma CountedHandlerStep(s: State, event: Event, h: nat)
    requires Enabled(s, event) && HandlersInv(s.handlers, s.jobs) && Counts(s, event, OfHandler(h))
    ensures h in s.handlers
    ensures event == OpenStream(h) ||
            (s.handlers[h].Streaming? && IsReadBy(Behind(s, event, s.handlers[h].job), h))
  {
  }

  lemma HandlersMoveAlone(s: State, event: Event, h: nat)
    requires Enabled(s, event) && h in s.handlers && event != OpenStream(h)
    ensures h in Apply(s, event).handlers && Apply(s, event).handlers[h] == s.handlers[h]
  {
  }

  lemma StreamLeftFalls(s: State, event: Event, k: nat, h: nat)
    requires JobsInv(s.jobs) && Enabled(s, event) && k < |s.jobs| && h in s.jobs[k].readers
    ensures StreamLeft(Apply(s, event).jobs, k, h) + (if IsReadBy(Behind(s, event, k), h) then 1 else 0)
            <= StreamLeft(s.jobs, k, h)
  {
    MovesByItsOwn(s, event, k);
    var inner := Behind(s, event, k);
    if inner.Some? {
      JobTheorems.ReaderEventDown(s.jobs[k], inner.value, h);
      JobTheorems.KeepsId(s.jobs[k], inner.value);
    }
  }

  lemma StreamingLeft(s: State, h: nat, k: nat)
    requires h in s.handlers && s.handlers[h] == Streaming(k)
    ensures Left(s, OfHandler(h)) == StreamLeft(s.jobs, k, h)
  {
  }

  /** The lookup is behind a handler that streams: what it takes are reads. */
  lemma StreamingReads(s: State, event: Event, h: nat, k: nat)
    requires Enabled(s, event) && HandlersInv(s.handlers, s.jobs)
    requires h in s.handlers && s.handlers[h] == Streaming(k)
    ensures Counts(s, event, OfHandler(h)) ==> IsReadBy(Behind(s, event, k), h)
    ensures h in Apply(s, event).handlers && Apply(s, event).handlers[h] == Streaming(k)
  {
    if Counts(s, event, OfHandler(h)) {
      CountedHandlerStep(s, event, h);
    }
    HandlersMoveAlone(s, event, h);
  }

  lemma StreamingFalls(s: State, event: Event, h: nat, k: nat)
    requires JobsInv(s.jobs) && HandlersInv(s.handlers, s.jobs) && Enabled(s, event)
    requires h in s.handlers && s.handlers[h] == Streaming(k)
    ensures Left(Apply(s, event), OfHandler(h)) + (if Counts(s, event, OfHandler(h)) then 1 else 0)
            <= Left(s, OfHandler(h))
  {
    StreamingReads(s, event, h, k);
    StreamingLeft(s, h, k);
    StreamingLeft(Apply(s, event), h, k);
    StreamLeftFalls(s, event, k, h);
  }

  lemma NewReaderLeft(count: int, sh: JobState.Shared)
    requires Job.ValidCount(count)
    ensures JobTheorems.ReaderLeft(count, sh, Job.NEW_READER) < HANDLER_STEPS
  {
  }

  lemma OpenedStream(s: State, h: nat, job: nat)
    requires Enabled(s, OpenStream(h)) && Requested(s, h) == Some(job)
    ensures var after := Apply(s, OpenStream(h));
            && h in after.handlers && after.handlers[h] == Streaming(job)
            && job < |after.jobs| && after.jobs[job].count == s.jobs[job].count
            && h in after.jobs[job].readers && after.jobs[job].readers[h] == Job.NEW_READER
  {
  }

  lemma OpeningFalls(s: State, h: nat)
    requires JobsInv(s.jobs) && Enabled(s, OpenStream(h))
    ensures Left(Apply(s, OpenStream(h)), OfHandler(h)) < Left(s, OfHandler(h))
  {
    var found := Requested(s, h);
    if found.Some? {
      var job := s.jobs[found.value];
      OpenedStream(s, h, found.value);
      NewReaderLeft(job.count, Apply(s, OpenStream(h)).jobs[found.value].shared);
    }
  }

  lemma OfHandlerFalls(s: State, event: Event, h: nat)
    requires Inv(s) && Enabled(s, event)
    ensures Left(Apply(s, event), OfHandler(h)) + (if Counts(s, event, OfHandler(h)) then 1 else 0)
            <= Left(s, OfHandler(h))
  {
    if Counts(s, event, OfHandler(h)) {
      CountedHandlerStep(s, event, h);
    }
    if event == OpenStream(h) {
      OpeningFalls(s, h);
    } else if h in s.handlers && s.handlers[h].Streaming? {
      StreamingFalls(s, event, h, s.handlers[h].job);
    } else if h in s.handlers {
      HandlersMoveAlone(s, event, h);
    } else {
      NewcomersAreAdmitted(s, event, h);
    }
  }

  lemma NewcomersAreAdmitted(s: State, event: Event, h: nat)
    requires Enabled(s, event) && h !in s.handlers
    ensures h in Apply(s, event).handlers ==> Apply(s, event).handlers[h].Admitted?
  {
  }

  lemma LeftFalls(s: State, event: Event, p: Process)
    requires Inv(s) && Enabled(s, event)
    ensures Left(Apply(s, event), p) + (if Counts(s, event, p) then 1 else 0) <= Left(s, p)
  {
    match p
    case OfServer => ServerLeftFalls(s, event);
    case OfJob(k) => OfJobFalls(s, event, k);
    case OfHandler(h) => OfHandlerFalls(s, event, h);
  }

  lemma LeftIsNat(s: State, p: Process)
    requires Inv(s)
    ensures 0 <= Left(s, p)
  {
    match p
    case OfServer =>
    case OfJob(k) =>
      if k < |s.jobs| {
        assert Job.Enabled(s.jobs[k], Job.Clock(s.jobs[k].now));
        JobTheorems.WriterEventDown(s.jobs[k], Job.Clock(s.jobs[k].now));
      }
    case OfHandler(h) =>
      if h in s.handlers && s.handlers[h].Streaming? {
        var job := s.jobs[s.handlers[h].job];
        JobTheorems.ReaderLeftBounds(job.count, job.shared, job.readers[h]);
      }
  }

  /** The steps among the first i that Serve waited for and that some process of these took. */
  ghost function Waited(run: Run, i: nat, who: set<Process>): nat
    requires IsRun(run) && i < |run.states|
  {
    if i == 0 then 0
    else Waited(run, i - 1, who) +
         (if Awaited(run.states[i - 1], run.events[i - 1]) && Actor(run.events[i - 1]) in who then 1 else 0)
  }

  lemma {:induction false} ProcessBound(run: Run, i: nat, p: Process)
    requires IsRun(run) && i < |run.states|
    ensures Waited(run, i, {p}) + Left(run.states[i], p) <= Limit(p)
    ensures Waited(run, i, {p}) <= Limit(p)
  {
    if i > 0 {
      ProcessBound(run, i - 1, p);
      InvHolds(run, i - 1);
      assert StepAt(run, i - 1);
      LeftFalls(run.states[i - 1], run.events[i - 1], p);
    }
    InvHolds(run, i);
    LeftIsNat(run.states[i], p);
  }

  lemma {:induction false} WaitedSplits(run: Run, i: nat, p: set<Process>, q: set<Process>)
    requires IsRun(run) && i < |run.states| && p !! q
    ensures Waited(run, i, p + q) == Waited(run, i, p) + Waited(run, i, q)
  {
    if i > 0 {
      WaitedSplits(run, i - 1, p, q);
    }
  }

  lemma {:induction false} WaitedOfNone(run: Run, i: nat)
    requires IsRun(run) && i < |run.states|
    ensures Waited(run, i, {}) == 0
  {
    if i > 0 {
      WaitedOfNone(run, i - 1);
    }
  }

  lemma OneMore(n: nat, limit: nat)
    ensures (n + 1) * limit == n * limit + limit
  {
  }

  lemma {:induction false} WaitedBySize(run: Run, i: nat, who: set<Process>, limit: nat)
    requires IsRun(run) && i < |run.states|
    requires forall p :: p in who ==> Limit(p) <= limit
    ensures Waited(run, i, who) <= |who| * limit
  {
    if who == {} {
      WaitedOfNone(run, i);
    } else {
      var p :| p in who;
      assert who == (who - {p}) + {p} && |who| == |who - {p}| + 1;
      WaitedBySize(run, i, who - {p}, limit);
      WaitedSplits(run, i, who - {p}, {p});
      ProcessBound(run, i, p);
      OneMore(|who - {p}|, limit);
    }
  }

  predicate IsThere(s: State, p: Process) {
    match p
    case OfServer => true
    case OfJob(k) => k < |s.jobs|
    case OfHandler(h) => h in s.handlers
  }

  /** An awaited step is taken by a process that is there. */
  lemma ActorIsThere(s: State, event: Event)
    requires Inv(s) && Enabled(s, event) && Awaited(s, event)
    ensures IsThere(s, Actor(event))
  {
    match Actor(event)
    case OfServer =>
    case OfJob(k) => CountedJobStep(s, event, k);
    case OfHandler(h) => CountedHandlerStep(s, event, h);
  }

  lemma ProcessStays(s: State, event: Event, p: Process)
    requires Enabled(s, event) && IsThere(s, p)
    ensures IsThere(Apply(s, event), p)
  {
    if p.OfHandler? && event != OpenStream(p.handler) {
      HandlersMoveAlone(s, event, p.handler);
    }
  }

  /** Every step Serve waited for. */
  ghost function AllWaited(run: Run, i: nat): nat
    requires IsRun(run) && i < |run.states|
  {
    if i == 0 then 0
    else AllWaited(run, i - 1) + (if Awaited(run.states[i - 1], run.events[i - 1]) then 1 else 0)
  }

  ghost predicate Covers(who: set<Process>, s: State) {
    forall p :: IsThere(s, p) ==> p in who
  }

  /** An awaited step is taken by one of these. */
  ghost predicate ActsWithin(run: Run, k: nat, who: set<Process>)
    requires IsRun(run) && k < |run.events|
  {
    Awaited(run.states[k], run.events[k]) ==> Actor(run.events[k]) in who
  }

  lemma CoversBefore(run: Run, k: nat, who: set<Process>)
    requires IsRun(run) && k < |run.events| && Covers(who, run.states[k + 1])
    ensures Covers(who, run.states[k]) && ActsWithin(run, k, who)
  {
    InvHolds(run, k);
    assert StepAt(run, k);
    forall p | IsThere(run.states[k], p) ensures p in who {
      ProcessStays(run.states[k], run.events[k], p);
    }
    if Awaited(run.states[k], run.events[k]) {
      ActorIsThere(run.states[k], run.events[k]);
    }
  }

  lemma {:induction false} CoversAll(run: Run, i: nat, k: nat, who: set<Process>)
    requires IsRun(run) && k < i < |run.states| && Covers(who, run.states[i])
    ensures ActsWithin(run, k, who)
    decreases i
  {
    CoversBefore(run, i - 1, who);
    if k < i - 1 {
      CoversAll(run, i - 1, k, who);
    }
  }

  lemma {:induction false} AllWaitedWithin(run: Run, i: nat, who: set<Process>)
    requires IsRun(run) && i < |run.states|
    requires forall k: nat :: k < i ==> ActsWithin(run, k, who)
    ensures AllWaited(run, i) == Waited(run, i, who)
  {
    if i > 0 {
      AllWaitedWithin(run, i - 1, who);
      assert ActsWithin(run, i - 1, who);
    }
  }

  lemma AllWaitedByProcesses(run: Run, i: nat, who: set<Process>)
    requires IsRun(run) && i < |run.states| && Covers(who, run.states[i])
    ensures AllWaited(run, i) == Waited(run, i, who)
  {
    forall k: nat | k < i ensures ActsWithin(run, k, who) {
      CoversAll(run, i, k, who);
    }
    AllWaitedWithin(run, i, who);
  }

  lemma {:induction false} CountJobs(n: nat) returns (jobs: set<Process>)
    ensures |jobs| == n && forall p :: p in jobs <==> p.OfJob? && p.job < n
  {
    jobs := {};
    if n > 0 {
      var fewer := CountJobs(n - 1);
      jobs := fewer + {OfJob(n - 1)};
    }
  }

  lemma {:induction false} CountHandlers(numbers: set<nat>) returns (handlers: set<Process>)
    ensures |handlers| == |numbers| && forall p :: p in handlers <==> p.OfHandler? && p.handler in numbers
  {
    handlers := {};
    if numbers != {} {
      var h :| h in numbers;
      var fewer := CountHandlers(numbers - {h});
      handlers := fewer + {OfHandler(h)};
    }
  }

  /** What Serve waits for from its first step to its return is bounded by the jobs and the handlers
      there are: so many steps for itself, so many for each job and so many for each handler. */
  lemma ShutdownBound(run: Run, i: nat)
    requires IsRun(run) && i < |run.states|
    ensures AllWaited(run, i) <=
            SERVER_STEPS + |run.states[i].jobs| * JOB_STEPS + |run.states[i].handlers| * HANDLER_STEPS
  {
    var s := run.states[i];
    var jobs := CountJobs(|s.jobs|);
    var handlers := CountHandlers(s.handlers.Keys);
    AllWaitedByProcesses(run, i, {OfServer} + (jobs + handlers));
    WaitedSplits(run, i, {OfServer}, jobs + handlers);
    WaitedSplits(run, i, jobs, handlers);
    ProcessBound(run, i, OfServer);
    WaitedBySize(run, i, jobs, JOB_STEPS);
    WaitedBySize(run, i, handlers, HANDLER_STEPS);
    assert |s.handlers.Keys| == |s.handlers|;
  }

  predicate IsStreamStep(event: Event, k: nat, r: nat) {
    event.JobMoves? && event.job == k && event.event.Read? && event.event.reader == r
  }

  /** The steps of one stream of one job. */
  function StreamSteps(events: seq<Event>, k: nat, r: nat): nat {
    if events == [] then 0
    else StreamSteps(events[..|events| - 1], k, r) + (if IsStreamStep(events[|events| - 1], k, r) then 1 else 0)
  }

  function StreamMeasure(s: State, k: nat, r: nat): int
    requires k < |s.jobs| && r in s.jobs[k].readers
  {
    JobTheorems.ReaderMeasure(s.jobs[k].shared, s.jobs[k].readers[r])
  }

  lemma StreamStepDown(s: State, event: Event, k: nat, r: nat)
    requires Inv(s) && Enabled(s, event)
    requires k < |s.jobs| && s.jobs[k].shared.status != Ticks.Running && r in s.jobs[k].readers
    ensures k < |Apply(s, event).jobs| && r in Apply(s, event).jobs[k].readers
    ensures StreamMeasure(Apply(s, event), k, r) + (if IsStreamStep(event, k, r) then 1 else 0)
            <= StreamMeasure(s, k, r)
  {
    MovesByItsOwn(s, event, k);
    var inner := Behind(s, event, k);
    if inner.Some? {
      JobTheorems.DrainEventDown(s.jobs[k], inner.value, r);
      JobInv.ApplyExtends(s.jobs[k], inner.value);
    }
  }

  lemma StaysFinished(run: Run, i: nat, j: nat, k: nat)
    requires IsRun(run) && i <= j < |run.states|
    requires k < |run.states[i].jobs| && run.states[i].jobs[k].shared.status != Ticks.Running
    ensures k < |run.states[j].jobs| && run.states[j].jobs[k].shared == run.states[i].jobs[k].shared
  {
    JobsGoOn(run, i, j);
  }

  lemma StreamStepAt(run: Run, j: nat, k: nat, r: nat)
    requires IsRun(run) && j < |run.events|
    requires k < |run.states[j].jobs| && r in run.states[j].jobs[k].readers
    requires run.states[j].jobs[k].shared.status != Ticks.Running
    ensures k < |run.states[j + 1].jobs| && r in run.states[j + 1].jobs[k].readers
    ensures StreamMeasure(run.states[j + 1], k, r) + (if IsStreamStep(run.events[j], k, r) then 1 else 0)
            <= StreamMeasure(run.states[j], k, r)
  {
    InvHolds(run, j);
    assert StepAt(run, j);
    StreamStepDown(run.states[j], run.events[j], k, r);
  }

  lemma {:induction false} StreamBudget(run: Run, i: nat, j: nat, k: nat, r: nat)
    requires IsRun(run) && i <= j < |run.states|
    requires k < |run.states[i].jobs| && r in run.states[i].jobs[k].readers
    requires run.states[i].jobs[k].shared.status != Ticks.Running
    ensures k < |run.states[j].jobs| && r in run.states[j].jobs[k].readers
    ensures StreamSteps(run.events[i..j], k, r) + StreamMeasure(run.states[j], k, r)
            <= StreamMeasure(run.states[i], k, r)
    decreases j - i
  {
    if i < j {
      StreamBudget(run, i, j - 1, k, r);
      StaysFinished(run, i, j - 1, k);
      StreamStepAt(run, j - 1, k, r);
      JobTheorems.SliceFront(run.events, i, j);
    }
  }

  // The drain.

  /** The lookups of admitted handlers. */
  function Opens(events: seq<Event>): nat {
    if events == [] then 0
    else Opens(events[..|events| - 1]) + (if events[|events| - 1].OpenStream? then 1 else 0)
  }

  /** The handlers that have yet to look their job up. */
  function AdmittedOf(s: State): set<nat> {
    set h | h in s.handlers && s.handlers[h].Admitted?
  }

  lemma AdmittedStepDown(s: State, event: Event)
    requires Enabled(s, event) && s.draining
    ensures Apply(s, event).handlers.Keys == s.handlers.Keys
    ensures |AdmittedOf(Apply(s, event))| + (if event.OpenStream? then 1 else 0) == |AdmittedOf(s)|
    ensures AdmittedOf(Apply(s, event)) <= AdmittedOf(s)
  {
    var after := Apply(s, event);
    if event.OpenStream? {
      assert AdmittedOf(s) == AdmittedOf(after) + {event.handler};
      assert event.handler !in AdmittedOf(after);
    } else {
      assert after.handlers == s.handlers;
    }
  }

  lemma {:induction false} AdmittedBudget(run: Run, i: nat, j: nat)
    requires IsRun(run) && i <= j < |run.states| && run.states[i].draining
    ensures run.states[j].draining && run.states[j].handlers.Keys == run.states[i].handlers.Keys
    ensures Opens(run.events[i..j]) + |AdmittedOf(run.states[j])| == |AdmittedOf(run.states[i])|
    ensures AdmittedOf(run.states[j]) <= AdmittedOf(run.states[i])
    decreases j - i
  {
    if i < j {
      AdmittedBudget(run, i, j - 1);
      assert StepAt(run, j - 1);
      AdmittedStepDown(run.states[j - 1], run.events[j - 1]);
      JobTheorems.SliceFront(run.events, i, j);
    }
  }

  /** Once the transport drains, no handler comes, streams only begin for handlers it had admitted by
      then, one for each at most, and each of those handlers can always go on. */
  lemma HandlersDrain(run: Run, i: nat, j: nat)
    requires IsRun(run) && i <= j < |run.states| && run.states[i].draining
    ensures run.states[j].draining && run.states[j].handlers.Keys == run.states[i].handlers.Keys
    ensures Opens(run.events[i..j]) + |AdmittedOf(run.states[j])| == |AdmittedOf(run.states[i])|
    ensures AdmittedOf(run.states[j]) <= AdmittedOf(run.states[i])
    ensures forall h :: h in AdmittedOf(run.states[j]) ==> Enabled(run.states[j], OpenStream(h))
  {
    AdmittedBudget(run, i, j);
    InvHolds(run, j);
    forall h | h in AdmittedOf(run.states[j]) ensures Enabled(run.states[j], OpenStream(h)) {
      AdmittedMoves(run.states[j], h);
    }
  }

  /** Once the jobs are stopped and the transport drains there is one bound on everything Serve waits
      for, however long the run goes on. */
  lemma ShutdownEnds(run: Run, i: nat, j: nat)
    requires IsRun(run) && i <= j < |run.states|
    requires run.states[i].draining && !run.states[i].registry.accepting
    ensures AllWaited(run, j) <=
            SERVER_STEPS + |run.states[i].jobs| * JOB_STEPS + |run.states[i].handlers| * HANDLER_STEPS
  {
    ShutdownBound(run, j);
    JobsGoOn(run, i, j);
    AdmittedBudget(run, i, j);
    assert |run.states[j].handlers| == |run.states[j].handlers.Keys|;
    assert |run.states[i].handlers| == |run.states[i].handlers.Keys|;
  }

  /** Once the jobs are stopped the drain ends: every stream, open already or opened since, always has a
      step until it returns, and a measure bounds how many it takes. */
  lemma DrainEnds(run: Run, i: nat, j: nat, k: nat, r: nat, call: nat)
    requires IsRun(run) && i <= j < |run.states|
    requires call in run.states[i].shutdowns && run.states[i].shutdowns[call].ShutdownDone?
    requires k < |run.states[i].jobs| && r in run.states[i].jobs[k].readers
    ensures k < |run.states[j].jobs| && r in run.states[j].jobs[k].readers
    ensures StreamSteps(run.events[i..j], k, r) <= 4 * (run.states[i].jobs[k].count + 1) + 3
    ensures run.states[j].jobs[k].readers[r].point.Returned? ||
            exists act :: Enabled(run.states[j], JobMoves(k, Job.Read(r, act)))
  {
    ShutdownComplete(run, i, call, j);
    ShutdownComplete(run, i, call, i);
    StreamBudget(run, i, j, k, r);
    InvHolds(run, i);
    InvHolds(run, j);
    var before, after := run.states[i].jobs[k], run.states[j].jobs[k];
    JobTheorems.ReaderMeasureBounds(before.count, before.shared, before.readers[r]);
    JobTheorems.ReaderMeasureBounds(after.count, after.shared, after.readers[r]);
    if !after.readers[r].point.Returned? {
      var act := LiveStreamMoves(run.states[j], k, r);
    }
  }
}
