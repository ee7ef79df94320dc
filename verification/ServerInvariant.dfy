/** The inductive invariant of ServerProtocol, and its preservation by every event. */
module ServerInvariant {
  import opened Wrappers
  import opened JobIds
  import opened ServerProtocol
  import Registry = RegistryModel
  import Job = JobProtocol
  import JobInv = JobInvariant
  import JobTheorems

  /** The registry is what its history makes it, and its k-th job is the k-th one started. */
  ghost predicate RegistryInv(s: State) {
    var minted := Registry.AllMinted(s.ops);
    && s.registry == Registry.Replay(s.ops)
    && |minted| == |s.jobs|
    && forall k :: 0 <= k < |s.jobs| ==> minted[k].job == k && minted[k].id == s.jobs[k].id
  }

  ghost predicate JobsInv(jobs: seq<Job.State>) {
    forall k :: 0 <= k < |jobs| ==> JobInv.Inv(jobs[k]) && Job.ValidCount(jobs[k].count)
  }

  predicate HasStop(job: Job.State, call: nat) {
    Job.Closer(call) in job.stops
  }

  predicate StopDone(job: Job.State, call: nat) {
    HasStop(job, call) && job.stops[Job.Closer(call)].Answered?
  }

  /** What a Shutdown call holds: once it has the list, the list is of every job there is. */
  ghost predicate ShutdownInv(accepting: bool, jobs: seq<Job.State>, call: nat, point: ShutdownPoint) {
    match point
    case BeforeLock => forall k :: 0 <= k < |jobs| ==> !HasStop(jobs[k], call)
    case Spawning(left, spawned) =>
      && !accepting
      && (forall k :: 0 <= k < |jobs| ==> (k in left <==> !HasStop(jobs[k], call)))
      && (forall k :: 0 <= k < |jobs| ==> (k in spawned <==> HasStop(jobs[k], call)))
      && (forall k :: k in left ==> k < |jobs|)
      && (forall k :: k in spawned ==> k < |jobs|)
    case ShutdownDone =>
      !accepting && forall k :: 0 <= k < |jobs| ==> StopDone(jobs[k], call)
  }

  /** A call that has not been made has stopped nothing. */
  ghost predicate NoStrayStops(s: State) {
    forall k, call: nat :: 0 <= k < |s.jobs| && HasStop(s.jobs[k], call) ==> call in s.shutdowns
  }

  ghost predicate ShutdownsInv(s: State) {
    && NoStrayStops(s)
    && forall call :: call in s.shutdowns ==>
         ShutdownInv(s.registry.accepting, s.jobs, call, s.shutdowns[call])
  }

  ghost predicate ServeInv(s: State) {
    && (s.serve.Listening? <==> s.drain.NotStarted?)
    && (s.drain.NotStarted? <==> BY_SERVE !in s.shutdowns)
    && (s.drain.InGracefulStop? || s.drain.Stopped? ==> s.draining && s.shutdowns[BY_SERVE].ShutdownDone?)
    && (s.cut ==> s.draining)
    && (s.cut <==> s.serve.AwaitingDrain? || s.serve == Collecting(false)
                   || (s.serve.Done? && s.cut))
    && (s.serve.Collecting? || s.serve.Done? ==> s.drain.Stopped?)
    && (s.serve.Draining? || s.serve.Cutting? || s.serve.AwaitingDrain? ==>
          s.serve.first.Some? ==> s.served == s.serve.first)
    && (s.serve.Collecting? ==> s.serve.isDrained == !s.cut)
    && (s.serve.Done? ==> s.served.Some? && s.serve.result == Verdict(s.served.value, !s.cut))
    && (s.drain.Stopped? && !s.cut ==> HandlersReturned(s))
  }

  /** The readers of a job are the handlers that stream it. */
  ghost predicate HandlersInv(handlers: map<nat, Handler>, jobs: seq<Job.State>) {
    && (forall h :: h in handlers && handlers[h].Streaming? ==> handlers[h].job < |jobs|)
    && (forall k, r :: 0 <= k < |jobs| ==> (r in jobs[k].readers <==> r in handlers && handlers[r] == Streaming(k)))
  }

  ghost predicate Inv(s: State) {
    && RegistryInv(s) && JobsInv(s.jobs) && ShutdownsInv(s)
    && ServeInv(s) && HandlersInv(s.handlers, s.jobs)
  }

  // Events that move one job.

  /** How a job may move under the server: it keeps its id and its Closers, and takes no answer back. */
  ghost predicate Calm(before: Job.State, after: Job.State) {
    && after.id == before.id
    && (forall n :: HasStop(after, n) == HasStop(before, n))
    && (forall n :: StopDone(before, n) ==> StopDone(after, n))
  }

  /** No stream begins, and none that has returned goes on. */
  ghost predicate Steady(before: Job.State, after: Job.State) {
    && after.readers.Keys == before.readers.Keys
    && (forall r :: r in before.readers && before.readers[r].point.Returned? ==> after.readers[r].point.Returned?)
  }

  lemma InternalIsQuiet(job: Job.State, event: Job.Event)
    requires Job.Enabled(job, event) && Internal(event)
    ensures Calm(job, Job.Apply(job, event)) && Steady(job, Job.Apply(job, event))
  {
  }

  lemma ClientStopIsQuiet(job: Job.State, n: nat)
    requires Job.Enabled(job, Job.CallStop(Job.Client(n)))
    ensures var after := Job.Apply(job, Job.CallStop(Job.Client(n)));
            Calm(job, after) && Steady(job, after)
  {
  }

  lemma OpenIsCalm(job: Job.State, stream: nat)
    requires Job.Enabled(job, Job.Open(stream))
    ensures var after := Job.Apply(job, Job.Open(stream));
            Calm(job, after) && after.readers.Keys == job.readers.Keys + {stream}
  {
  }

  lemma JobsInvMoves(jobs: seq<Job.State>, job: nat, event: Job.Event)
    requires JobsInv(jobs) && job < |jobs| && Job.Enabled(jobs[job], event)
    ensures JobsInv(jobs[job := Job.Apply(jobs[job], event)])
  {
    JobInv.ApplyKeeps(jobs[job], event);
    JobTheorems.KeepsId(jobs[job], event);
  }

  /** A calm move keeps every Shutdown call where it is. */
  lemma ShutdownsKeep(s: State, job: nat, moved: Job.State)
    requires ShutdownsInv(s) && job < |s.jobs| && Calm(s.jobs[job], moved)
    ensures ShutdownsInv(s.(jobs := s.jobs[job := moved]))
  {
    var after := s.(jobs := s.jobs[job := moved]);
    forall call | call in after.shutdowns
      ensures ShutdownInv(after.registry.accepting, after.jobs, call, after.shutdowns[call])
    {
      assert ShutdownInv(s.registry.accepting, s.jobs, call, s.shutdowns[call]);
    }
  }

  lemma StreamsKeep(jobs: seq<Job.State>, job: nat, moved: Job.State)
    requires job < |jobs| && Steady(jobs[job], moved)
    requires StreamsReturned(jobs)
    ensures StreamsReturned(jobs[job := moved])
  {
  }

  lemma HandlersKeep(handlers: map<nat, Handler>, jobs: seq<Job.State>, job: nat, moved: Job.State)
    requires HandlersInv(handlers, jobs) && job < |jobs| && moved.readers.Keys == jobs[job].readers.Keys
    ensures HandlersInv(handlers, jobs[job := moved])
  {
  }

  lemma QuietMoveKeeps(s: State, job: nat, event: Job.Event)
    requires Inv(s) && JobEnabled(s, job, event)
    requires Calm(s.jobs[job], Job.Apply(s.jobs[job], event)) && Steady(s.jobs[job], Job.Apply(s.jobs[job], event))
    ensures Inv(MoveJob(s, job, event))
  {
    var moved := Job.Apply(s.jobs[job], event);
    JobsInvMoves(s.jobs, job, event);
    ShutdownsKeep(s, job, moved);
    if s.drain.Stopped? && !s.cut {
      StreamsKeep(s.jobs, job, moved);
    }
    HandlersKeep(s.handlers, s.jobs, job, moved);
    MoveKeepsTheRest(s, job, moved);
  }

  lemma MoveKeepsTheRest(s: State, job: nat, moved: Job.State)
    requires RegistryInv(s) && ServeInv(s) && job < |s.jobs| && moved.id == s.jobs[job].id
    requires s.drain.Stopped? && !s.cut ==> StreamsReturned(s.jobs[job := moved])
    ensures RegistryInv(s.(jobs := s.jobs[job := moved]))
    ensures ServeInv(s.(jobs := s.jobs[job := moved]))
  {
    if s.drain.Stopped? && !s.cut {
      assert forall h :: h in s.handlers ==> !IsAdmitted(s, h);
      assert HandlersReturned(s.(jobs := s.jobs[job := moved]));
    }
  }

  lemma JobMovesKeeps(s: State, job: nat, inner: Job.Event)
    requires Inv(s) && Enabled(s, JobMoves(job, inner))
    ensures Inv(Apply(s, JobMoves(job, inner)))
  {
    InternalIsQuiet(s.jobs[job], inner);
    QuietMoveKeeps(s, job, inner);
  }

  lemma StopRpcKeeps(s: State, agent: AgentId, id: JobId, call: nat)
    requires Inv(s) && Enabled(s, StopRpc(agent, id, call))
    ensures Inv(Apply(s, StopRpc(agent, id, call)))
  {
    match Registry.Find(s.registry, agent, id)
    case None =>
    case Some(job) =>
      ClientStopIsQuiet(s.jobs[job], call);
      QuietMoveKeeps(s, job, Job.CallStop(Job.Client(call)));
  }

  /** A handler that was admitted keeps the drain waiting. */
  lemma AdmittedKeepsWaiting(s: State, handler: nat)
    requires ServeInv(s) && IsAdmitted(s, handler)
    ensures s.drain.Stopped? ==> s.cut
  {
  }

  /** Serve does not look at handlers before they have returned. */
  lemma ServeIgnoresHandlers(s: State, after: State)
    requires ServeInv(s) && after == s.(handlers := after.handlers, jobs := after.jobs)
    requires s.drain.Stopped? ==> s.cut
    ensures ServeInv(after)
  {
  }

  lemma HandlerOpens(handlers: map<nat, Handler>, jobs: seq<Job.State>, job: nat, moved: Job.State, handler: nat)
    requires HandlersInv(handlers, jobs) && job < |jobs|
    requires handler in handlers && handlers[handler].Admitted?
    requires moved.readers.Keys == jobs[job].readers.Keys + {handler}
    ensures HandlersInv(handlers[handler := Streaming(job)], jobs[job := moved])
  {
  }

  lemma OpenStreamKeeps(s: State, handler: nat)
    requires Inv(s) && Enabled(s, OpenStream(handler))
    ensures Inv(Apply(s, OpenStream(handler)))
  {
    AdmittedKeepsWaiting(s, handler);
    match Requested(s, handler)
    case None => HandlerMoves(s, handler, NotFound);
    case Some(job) =>
      var moved := Job.Apply(s.jobs[job], Job.Open(handler));
      OpenIsCalm(s.jobs[job], handler);
      JobsInvMoves(s.jobs, job, Job.Open(handler));
      ShutdownsKeep(s, job, moved);
      HandlerOpens(s.handlers, s.jobs, job, moved, handler);
      var after := Apply(s, OpenStream(handler));
      ServeIgnoresHandlers(s, after);
      RegistryIgnoresHandlers(s, after, job);
  }

  lemma RegistryIgnoresHandlers(s: State, after: State, job: nat)
    requires RegistryInv(s) && ShutdownsInv(s.(jobs := after.jobs))
    requires job < |s.jobs| == |after.jobs| && after.jobs == s.jobs[job := after.jobs[job]]
    requires after.jobs[job].id == s.jobs[job].id
    requires after == s.(jobs := after.jobs, handlers := after.handlers)
    ensures RegistryInv(after) && ShutdownsInv(after)
  {
  }

  lemma HandlerStreamsNothing(handlers: map<nat, Handler>, jobs: seq<Job.State>, handler: nat, point: Handler)
    requires HandlersInv(handlers, jobs) && !point.Streaming?
    requires handler in handlers ==> handlers[handler].Admitted?
    ensures HandlersInv(handlers[handler := point], jobs)
  {
  }

  lemma OnlyHandlersMove(s: State, after: State)
    requires RegistryInv(s) && JobsInv(s.jobs) && ShutdownsInv(s)
    requires after == s.(handlers := after.handlers)
    ensures RegistryInv(after) && JobsInv(after.jobs) && ShutdownsInv(after)
  {
  }

  /** A handler that is new or refused changes nothing else. */
  lemma HandlerMoves(s: State, handler: nat, point: Handler)
    requires Inv(s) && !point.Streaming?
    requires handler in s.handlers ==> IsAdmitted(s, handler)
    requires s.drain.Stopped? ==> s.cut
    ensures Inv(s.(handlers := s.handlers[handler := point]))
  {
    var after := s.(handlers := s.handlers[handler := point]);
    ServeIgnoresHandlers(s, after);
    HandlerStreamsNothing(s.handlers, s.jobs, handler, point);
    OnlyHandlersMove(s, after);
  }

  lemma AdmitKeeps(s: State, handler: nat, agent: AgentId, id: JobId)
    requires Inv(s) && Enabled(s, Admit(handler, agent, id))
    ensures Inv(Apply(s, Admit(handler, agent, id)))
  {
    HandlerMoves(s, handler, Admitted(agent, id));
  }

  // Events of the registry.

  lemma CreateKeepsRegistry(s: State, agent: AgentId, count: int, now: int)
    requires RegistryInv(s)
    ensures RegistryInv(Apply(s, Create(agent, count, now)))
  {
    Registry.ReplayAppend(s.ops, Registry.CreateOp(agent, count, |s.jobs|));
  }

  /** A job begins as NewJob leaves it, behind the others. */
  lemma BeginsFresh(s: State, agent: AgentId, count: int, now: int)
    ensures var after := Apply(s, Create(agent, count, now));
            && after == s.(ops := after.ops, registry := after.registry, jobs := after.jobs)
            && (after.jobs != s.jobs ==>
                  && |after.jobs| == |s.jobs| + 1
                  && after.jobs == s.jobs + [Job.Initial(after.jobs[|s.jobs|].id, count, now)]
                  && Job.ValidCount(count) && s.registry.accepting)
            && after.registry.accepting == s.registry.accepting
  {
  }

  lemma CreateKeeps(s: State, agent: AgentId, count: int, now: int)
    requires Inv(s)
    ensures Inv(Apply(s, Create(agent, count, now)))
  {
    var after := Apply(s, Create(agent, count, now));
    CreateKeepsRegistry(s, agent, count, now);
    BeginsFresh(s, agent, count, now);
    if after.jobs != s.jobs {
      StartedJobJoins(s, after, after.jobs[|s.jobs|].id, count, now);
    } else {
      NothingStarts(s, after);
    }
  }

  lemma NothingStarts(s: State, after: State)
    requires Inv(s) && RegistryInv(after)
    requires after == s.(ops := after.ops, registry := after.registry)
    requires after.registry.accepting == s.registry.accepting
    ensures Inv(after)
  {
    assert ShutdownsInv(after);
  }

  /** A job that has just started has no stop and no stream. */
  lemma StartedJobJoins(s: State, after: State, id: JobId, count: int, now: int)
    requires Inv(s) && RegistryInv(after) && Job.ValidCount(count)
    requires s.registry.accepting && after.registry.accepting
    requires after == s.(ops := after.ops, registry := after.registry, jobs := s.jobs + [Job.Initial(id, count, now)])
    ensures Inv(after)
  {
    JobInv.InitialInv(id, count, now);
    StartedShutdowns(s, after, Job.Initial(id, count, now));
    StartedServe(s, after, Job.Initial(id, count, now));
    StartedHandlers(s.handlers, s.jobs, Job.Initial(id, count, now));
  }

  lemma StartedShutdowns(s: State, after: State, started: Job.State)
    requires ShutdownsInv(s) && s.registry.accepting && after.registry.accepting
    requires after.shutdowns == s.shutdowns && after.jobs == s.jobs + [started] && started.stops == map[]
    ensures ShutdownsInv(after)
  {
    forall call | call in s.shutdowns
      ensures ShutdownInv(after.registry.accepting, after.jobs, call, s.shutdowns[call])
    {
      assert ShutdownInv(s.registry.accepting, s.jobs, call, s.shutdowns[call]);
    }
  }

  lemma StartedServe(s: State, after: State, started: Job.State)
    requires ServeInv(s) && started.readers == map[]
    requires after == s.(ops := after.ops, registry := after.registry, jobs := s.jobs + [started])
    ensures ServeInv(after)
  {
    if s.drain.Stopped? && !s.cut {
      assert forall h :: h in s.handlers ==> !IsAdmitted(s, h);
      assert HandlersReturned(after);
    }
  }

  lemma StartedHandlers(handlers: map<nat, Handler>, jobs: seq<Job.State>, started: Job.State)
    requires HandlersInv(handlers, jobs) && started.readers == map[]
    ensures HandlersInv(handlers, jobs + [started])
  {
  }

  lemma LockKeepsRegistry(s: State, call: nat)
    requires RegistryInv(s) && Enabled(s, LockShutdown(call))
    ensures RegistryInv(Apply(s, LockShutdown(call)))
  {
    Registry.ReplayAppend(s.ops, Registry.CloseOp);
  }

  /** A Shutdown that has locked has every job before it. */
  lemma LockKeepsShutdowns(s: State, after: State, call: nat, left: set<nat>)
    requires ShutdownsInv(s) && call in s.shutdowns && s.shutdowns[call].BeforeLock?
    requires forall k: nat :: k in left <==> k < |s.jobs|
    requires !after.registry.accepting && after.jobs == s.jobs
    requires after.shutdowns == s.shutdowns[call := Spawning(left, {})]
    ensures ShutdownsInv(after)
  {
    forall c | c in after.shutdowns
      ensures ShutdownInv(after.registry.accepting, after.jobs, c, after.shutdowns[c])
    {
      assert ShutdownInv(s.registry.accepting, s.jobs, c, s.shutdowns[c]);
    }
  }

  lemma LockKeepsServe(s: State, after: State, call: nat, left: set<nat>)
    requires ServeInv(s) && call in s.shutdowns && s.shutdowns[call].BeforeLock?
    requires after == s.(registry := after.registry, ops := after.ops,
                         shutdowns := s.shutdowns[call := Spawning(left, {})])
    ensures ServeInv(after)
  {
  }

  lemma LockKeeps(s: State, call: nat)
    requires Inv(s) && Enabled(s, LockShutdown(call))
    ensures Inv(Apply(s, LockShutdown(call)))
  {
    var after := Apply(s, LockShutdown(call));
    var left := Registry.JobsOf(s.registry);
    forall k: nat ensures k in left <==> k < |s.jobs| {
      ListsEveryJob(s, k);
    }
    LockKeepsRegistry(s, call);
    LockKeepsShutdowns(s, after, call, left);
    LockKeepsServe(s, after, call, left);
  }

  lemma ListsEveryJob(s: State, k: nat)
    requires RegistryInv(s)
    ensures k in Registry.JobsOf(s.registry) <==> k < |s.jobs|
  {
    var minted := Registry.AllMinted(s.ops);
    Registry.JobsAreMinted(s.ops, k);
    if k < |s.jobs| {
      Registry.MintedIsListed(s.ops, k);
      assert minted[k].job == k;
    }
    if k in Registry.JobsOf(s.registry) {
      var m :| 0 <= m < |minted| && minted[m].job == k;
      assert minted[m].job == m;
    }
  }

  lemma CloserIsOne(job: Job.State, call: nat)
    requires Job.Enabled(job, Job.CallStop(Job.Closer(call)))
    ensures var after := Job.Apply(job, Job.CallStop(Job.Closer(call)));
            && after.id == job.id && after.readers == job.readers
            && (forall n :: HasStop(after, n) == (HasStop(job, n) || n == call))
            && (forall n :: StopDone(job, n) ==> StopDone(after, n))
  {
  }

  lemma SpawnShutdowns(s: State, call: nat, job: nat, moved: Job.State)
    requires ShutdownsInv(s) && job < |s.jobs|
    requires call in s.shutdowns && s.shutdowns[call].Spawning? && job in s.shutdowns[call].left
    requires forall n :: HasStop(moved, n) == (HasStop(s.jobs[job], n) || n == call)
    requires forall n :: StopDone(s.jobs[job], n) ==> StopDone(moved, n)
    ensures var point := s.shutdowns[call];
            ShutdownsInv(s.(jobs := s.jobs[job := moved],
                            shutdowns := s.shutdowns[call := Spawning(point.left - {job}, point.spawned + {job})]))
  {
    var point := s.shutdowns[call];
    var jobs := s.jobs[job := moved];
    var shutdowns := s.shutdowns[call := Spawning(point.left - {job}, point.spawned + {job})];
    assert ShutdownInv(s.registry.accepting, s.jobs, call, point);
    forall c | c in shutdowns ensures ShutdownInv(s.registry.accepting, jobs, c, shutdowns[c]) {
      assert ShutdownInv(s.registry.accepting, s.jobs, c, s.shutdowns[c]);
    }
  }

  lemma SpawnKeeps(s: State, call: nat, job: nat)
    requires Inv(s) && Enabled(s, SpawnStop(call, job))
    ensures Inv(Apply(s, SpawnStop(call, job)))
  {
    var event := Job.CallStop(Job.Closer(call));
    var moved := Job.Apply(s.jobs[job], event);
    CloserIsOne(s.jobs[job], call);
    JobsInvMoves(s.jobs, job, event);
    SpawnShutdowns(s, call, job, moved);
    if s.drain.Stopped? && !s.cut {
      StreamsKeep(s.jobs, job, moved);
    }
    HandlersKeep(s.handlers, s.jobs, job, moved);
    MoveKeepsTheRest(s, job, moved);
  }

  lemma ReturnKeeps(s: State, call: nat)
    requires Inv(s) && Enabled(s, ReturnShutdown(call))
    ensures Inv(Apply(s, ReturnShutdown(call)))
  {
    var after := Apply(s, ReturnShutdown(call));
    forall c | c in after.shutdowns
      ensures ShutdownInv(after.registry.accepting, after.jobs, c, after.shutdowns[c])
    {
      assert ShutdownInv(s.registry.accepting, s.jobs, c, s.shutdowns[c]);
    }
  }

  lemma CallShutdownKeeps(s: State, call: nat)
    requires Inv(s) && call !in s.shutdowns
    ensures ShutdownsInv(s.(shutdowns := s.shutdowns[call := BeforeLock]))
  {
    var after := s.(shutdowns := s.shutdowns[call := BeforeLock]);
    forall c | c in after.shutdowns
      ensures ShutdownInv(after.registry.accepting, after.jobs, c, after.shutdowns[c])
    {
      if c != call {
        assert ShutdownInv(s.registry.accepting, s.jobs, c, s.shutdowns[c]);
      } else {
        assert forall k :: 0 <= k < |s.jobs| ==> !HasStop(s.jobs[k], call);
      }
    }
  }

  lemma NewShutdownKeeps(s: State, call: nat)
    requires Inv(s) && Enabled(s, CallShutdown(call))
    ensures Inv(Apply(s, CallShutdown(call)))
  {
    CallShutdownKeeps(s, call);
    assert ServeInv(Apply(s, CallShutdown(call)));
  }

  // Events of Serve.

  /** Serve and its drain goroutine leave the registry and the jobs alone. */
  lemma ServeKeeps(s: State, after: State)
    requires Inv(s) && ServeInv(after)
    requires after == s.(served := after.served, contextDone := after.contextDone, draining := after.draining,
                         cut := after.cut, serve := after.serve, drain := after.drain)
    ensures Inv(after)
  {
  }

  lemma BeginDrainKeeps(s: State, first: Option<TransportEnd>)
    requires Inv(s) && s.serve.Listening?
    requires first.Some? ==> first == s.served
    ensures Inv(BeginDrain(s, first))
  {
    CallShutdownKeeps(s, BY_SERVE);
    assert ServeInv(BeginDrain(s, first));
  }

  predicate OfServe(event: Event) {
    || event.TransportEnds? || event.ContextEnds? || event.SeeStopped? || event.GraceExpires?
    || event.CutTransport? || event.SeeStoppedAfterCut? || event.CollectEnd?
    || event.JobsAreStopped? || event.GracefulStopReturns?
  }

  lemma ServeInvKeeps(s: State, event: Event)
    requires ServeInv(s) && OfServe(event) && Enabled(s, event)
    ensures ServeInv(Apply(s, event))
  {
  }

  lemma ServeEventKeeps(s: State, event: Event)
    requires Inv(s) && OfServe(event) && Enabled(s, event)
    ensures Inv(Apply(s, event))
  {
    ServeInvKeeps(s, event);
    ServeKeeps(s, Apply(s, event));
  }

  predicate OfJobs(event: Event) {
    event.Create? || event.StopRpc? || event.Admit? || event.OpenStream? || event.JobMoves?
  }

  lemma JobEventKeeps(s: State, event: Event)
    requires Inv(s) && OfJobs(event) && Enabled(s, event)
    ensures Inv(Apply(s, event))
  {
    match event
    case Create(agent, count, now) => CreateKeeps(s, agent, count, now);
    case StopRpc(agent, id, call) => StopRpcKeeps(s, agent, id, call);
    case Admit(handler, agent, id) => AdmitKeeps(s, handler, agent, id);
    case OpenStream(handler) => OpenStreamKeeps(s, handler);
    case JobMoves(job, inner) => JobMovesKeeps(s, job, inner);
  }

  predicate OfShutdown(event: Event) {
    event.LockShutdown? || event.SpawnStop? || event.ReturnShutdown? || event.CallShutdown?
  }

  lemma ShutdownEventKeeps(s: State, event: Event)
    requires Inv(s) && OfShutdown(event) && Enabled(s, event)
    ensures Inv(Apply(s, event))
  {
    match event
    case LockShutdown(call) => LockKeeps(s, call);
    case SpawnStop(call, job) => SpawnKeeps(s, call, job);
    case ReturnShutdown(call) => ReturnKeeps(s, call);
    case CallShutdown(call) => NewShutdownKeeps(s, call);
  }

  lemma ApplyKeeps(s: State, event: Event)
    requires Inv(s) && Enabled(s, event)
    ensures Inv(Apply(s, event))
  {
    if OfJobs(event) {
      JobEventKeeps(s, event);
    } else if OfShutdown(event) {
      ShutdownEventKeeps(s, event);
    } else {
      match event
      case SeeTransportEnd => BeginDrainKeeps(s, s.served);
      case SeeContext => BeginDrainKeeps(s, None);
      case _ => ServeEventKeeps(s, event);
    }
  }
}
