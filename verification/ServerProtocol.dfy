/** The whole server as a transition system over events: the registry, every job it started, any
    number of Shutdown calls, the RPC handlers, and Serve with the goroutine that drains the transport
    (internal/registry/registry.go, internal/server/server.go, internal/server/service.go). A job is
    referred to by the order it was started in. */
module ServerProtocol {
  import opened Wrappers
  import opened JobIds
  import Registry = RegistryModel
  import Job = JobProtocol

  /** A Shutdown call of the registry. Spawning starts one Stop per job; with none left it waits. */
  datatype ShutdownPoint =
    | BeforeLock
    | Spawning(left: set<nat>, spawned: set<nat>)
    | ShutdownDone

  /** How the transport's own serve loop came back. */
  datatype TransportEnd = CleanEnd | ServerStopped | Broken

  datatype ServeResult = ServedNil | ServeFailed | GraceElapsed

  /** Serve. first holds the transport's result when it arrived before the shutdown began. */
  datatype ServePoint =
    | Listening
    | Draining(first: Option<TransportEnd>)
    | Cutting(first: Option<TransportEnd>)
    | AwaitingDrain(first: Option<TransportEnd>)
    | Collecting(isDrained: bool)
    | Done(result: ServeResult)

  /** How far the goroutine of a shutdown is: it turns to the transport once no job runs. */
  datatype DrainPoint = NotStarted | StoppingJobs | InGracefulStop | Stopped

  /** A StreamOutput handler: admitted by the transport and yet to look its job up, streaming the job
      it found, as the reader of its own number, or refused. */
  datatype Handler = Admitted(agent: AgentId, id: JobId) | Streaming(job: nat) | NotFound

  /** draining: the transport admits no more RPCs. cut: it was stopped without waiting. */
  datatype State = State(
    ops: seq<Registry.Op<nat>>, registry: Registry.Registry<nat>, jobs: seq<Job.State>,
    shutdowns: map<nat, ShutdownPoint>, handlers: map<nat, Handler>,
    contextDone: bool, served: Option<TransportEnd>, draining: bool, cut: bool,
    serve: ServePoint, drain: DrainPoint)

  /** The Shutdown call that Serve makes. */
  const BY_SERVE: nat := 0

  datatype Event =
    | Create(agent: AgentId, count: int, now: int)
    | StopRpc(agent: AgentId, id: JobId, call: nat)
    | Admit(handler: nat, agent: AgentId, id: JobId)
    | OpenStream(handler: nat)
    | JobMoves(job: nat, event: Job.Event)
    | CallShutdown(call: nat)
    | LockShutdown(call: nat)
    | SpawnStop(call: nat, job: nat)
    | ReturnShutdown(call: nat)
    | TransportEnds(end: TransportEnd)
    | ContextEnds
    | SeeTransportEnd
    | SeeContext
    | JobsAreStopped
    | GracefulStopReturns
    | SeeStopped
    | GraceExpires
    | CutTransport
    | SeeStoppedAfterCut
    | CollectEnd

  const INITIAL: State :=
    State([], Registry.Empty(), [], map[], map[], false, None, false, false, Listening, NotStarted)

  /** The events of a job that come from within. Calls are made through the registry, and the
      context a job is started under is never cancelled. */
  predicate Internal(event: Job.Event) {
    !event.CallStop? && !event.Open? && !event.ParentDone?
  }

  /** What the contract of GracefulStop waits for: no handler is left, neither admitted nor streaming. */
  predicate HandlersReturned(s: State) {
    (forall h :: h in s.handlers ==> !IsAdmitted(s, h)) && StreamsReturned(s.jobs)
  }

  predicate IsAdmitted(s: State, handler: nat) {
    handler in s.handlers && s.handlers[handler].Admitted?
  }

  predicate StreamsReturned(jobs: seq<Job.State>) {
    forall k, r :: 0 <= k < |jobs| && r in jobs[k].readers ==> jobs[k].readers[r].point.Returned?
  }

  predicate StopsAnswered(jobs: seq<Job.State>, refs: set<nat>, call: nat) {
    forall k :: k in refs ==>
      k < |jobs| && Job.Closer(call) in jobs[k].stops && jobs[k].stops[Job.Closer(call)].Answered?
  }

  /** What Serve makes of the transport's result and the drain. */
  function Verdict(end: TransportEnd, isDrained: bool): ServeResult {
    if end.Broken? then ServeFailed else if !isDrained then GraceElapsed else ServedNil
  }

  /** Serve goes on with a drain: it returns if the transport's result is in hand, and waits for it if not. */
  function AfterDrain(first: Option<TransportEnd>, isDrained: bool): ServePoint {
    match first
    case Some(end) => Done(Verdict(end, isDrained))
    case None => Collecting(isDrained)
  }

  predicate JobEnabled(s: State, job: nat, event: Job.Event) {
    job < |s.jobs| && Job.Enabled(s.jobs[job], event)
  }

  function MoveJob(s: State, job: nat, event: Job.Event): State
    requires JobEnabled(s, job, event)
  {
    s.(jobs := s.jobs[job := Job.Apply(s.jobs[job], event)])
  }

  /** The job an admitted handler finds when it looks. */
  function Requested(s: State, handler: nat): Option<nat>
    requires IsAdmitted(s, handler)
  {
    Registry.Find(s.registry, s.handlers[handler].agent, s.handlers[handler].id)
  }

  predicate Enabled(s: State, event: Event) {
    match event
    case Create(_, _, _) => true
    case StopRpc(agent, id, call) =>
      Registry.Find(s.registry, agent, id).Some? ==>
        JobEnabled(s, Registry.Find(s.registry, agent, id).value, Job.CallStop(Job.Client(call)))
    case Admit(handler, _, _) => !s.draining && handler !in s.handlers
    case OpenStream(handler) =>
      && IsAdmitted(s, handler)
      && (Requested(s, handler).Some? ==> JobEnabled(s, Requested(s, handler).value, Job.Open(handler)))
    case JobMoves(job, inner) => Internal(inner) && JobEnabled(s, job, inner)
    case CallShutdown(call) => call != BY_SERVE && call !in s.shutdowns
    case LockShutdown(call) => call in s.shutdowns && s.shutdowns[call].BeforeLock?
    case SpawnStop(call, job) =>
      && call in s.shutdowns && s.shutdowns[call].Spawning? && job in s.shutdowns[call].left
      && JobEnabled(s, job, Job.CallStop(Job.Closer(call)))
    case ReturnShutdown(call) =>
      && call in s.shutdowns && s.shutdowns[call].Spawning? && s.shutdowns[call].left == {}
      && StopsAnswered(s.jobs, s.shutdowns[call].spawned, call)
    case TransportEnds(_) => s.served.None?
    case ContextEnds => true
    case SeeTransportEnd => s.serve.Listening? && s.served.Some?
    case SeeContext => s.serve.Listening? && s.contextDone
    case JobsAreStopped =>
      s.drain.StoppingJobs? && BY_SERVE in s.shutdowns && s.shutdowns[BY_SERVE].ShutdownDone?
    case GracefulStopReturns => s.drain.InGracefulStop? && (s.cut || HandlersReturned(s))
    case SeeStopped => s.serve.Draining? && s.drain.Stopped?
    case GraceExpires => s.serve.Draining?
    case CutTransport => s.serve.Cutting?
    case SeeStoppedAfterCut => s.serve.AwaitingDrain? && s.drain.Stopped?
    case CollectEnd => s.serve.Collecting? && s.served.Some?
  }

  function Apply(s: State, event: Event): (after: State)
    requires Enabled(s, event)
    ensures |s.jobs| <= |after.jobs| && (event.Create? || |after.jobs| == |s.jobs|)
    ensures after.registry.accepting ==> s.registry.accepting
    ensures (s.cut ==> after.cut) && (s.draining ==> after.draining)
    ensures event.Admit? || event.OpenStream? || after.handlers == s.handlers
  {
    match event
    case Create(agent, count, now) =>
      var (registry, result) := Registry.Create(s.registry, agent, count, |s.jobs|);
      s.(registry := registry,
         ops := s.ops + [Registry.CreateOp(agent, count, |s.jobs|)],
         jobs := if result.Success? then s.jobs + [Job.Initial(result.value, count, now)] else s.jobs)
    case StopRpc(agent, id, call) =>
      (match Registry.Find(s.registry, agent, id)
       case Some(job) => MoveJob(s, job, Job.CallStop(Job.Client(call)))
       case None => s)
    case Admit(handler, agent, id) => s.(handlers := s.handlers[handler := Admitted(agent, id)])
    case OpenStream(handler) =>
      (match Requested(s, handler)
       case Some(job) => MoveJob(s, job, Job.Open(handler)).(handlers := s.handlers[handler := Streaming(job)])
       case None => s.(handlers := s.handlers[handler := NotFound]))
    case JobMoves(job, inner) => MoveJob(s, job, inner)
    case CallShutdown(call) => s.(shutdowns := s.shutdowns[call := BeforeLock])
    case LockShutdown(call) =>
      s.(registry := Registry.Close(s.registry), ops := s.ops + [Registry.CloseOp],
         shutdowns := s.shutdowns[call := Spawning(Registry.JobsOf(s.registry), {})])
    case SpawnStop(call, job) =>
      var point := s.shutdowns[call];
      MoveJob(s, job, Job.CallStop(Job.Closer(call)))
      .(shutdowns := s.shutdowns[call := Spawning(point.left - {job}, point.spawned + {job})])
    case ReturnShutdown(call) => s.(shutdowns := s.shutdowns[call := ShutdownDone])
    case TransportEnds(end) => s.(served := Some(end))
    case ContextEnds => s.(contextDone := true)
    case SeeTransportEnd => BeginDrain(s, s.served)
    case SeeContext => BeginDrain(s, None)
    case JobsAreStopped => s.(drain := InGracefulStop, draining := true)
    case GracefulStopReturns => s.(drain := Stopped)
    case SeeStopped => s.(serve := AfterDrain(s.serve.first, true))
    case GraceExpires => s.(serve := Cutting(s.serve.first))
    case CutTransport => s.(serve := AwaitingDrain(s.serve.first), draining := true, cut := true)
    case SeeStoppedAfterCut => s.(serve := AfterDrain(s.serve.first, false))
    case CollectEnd => s.(serve := Done(Verdict(s.served.value, s.serve.isDrained)))
  }

  function BeginDrain(s: State, first: Option<TransportEnd>): State {
    s.(serve := Draining(first), drain := StoppingJobs, shutdowns := s.shutdowns[BY_SERVE := BeforeLock])
  }

  datatype Run = Run(states: seq<State>, events: seq<Event>)

  ghost predicate StepAt(run: Run, i: nat)
    requires i < |run.events| && i + 1 < |run.states|
  {
    Enabled(run.states[i], run.events[i]) && run.states[i + 1] == Apply(run.states[i], run.events[i])
  }

  ghost predicate IsRun(run: Run) {
    && |run.states| == |run.events| + 1
    && run.states[0] == INITIAL
    && forall i: nat :: i < |run.events| ==> StepAt(run, i)
  }
}
