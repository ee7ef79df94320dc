/** Whose calls reach which job, and what makes Serve come to an end (internal/server/service.go,
    internal/server/server.go). */
module ServerOwnership {
  import opened Wrappers
  import opened JobIds
  import opened ServerProtocol
  import opened ServerInvariant
  import opened ServerTheorems
  import Registry = RegistryModel
  import Job = JobProtocol
  import JobTheorems
  import Ticks

  // Start.

  /** A job that was started is its agent's under the id that was returned, from the return on and for
      good, and counts down from the count that was asked for. */
  lemma StartedIsReachable(run: Run, i: nat, j: nat)
    requires IsRun(run) && i < j < |run.states| && run.events[i].Create?
    requires Started(run, i).Success?
    ensures var e, job := run.events[i], |run.states[i].jobs|;
            && Registry.Find(run.states[j].registry, e.agent, Started(run, i).value) == Some(job)
            && job < |run.states[j].jobs|
            && run.states[j].jobs[job].id == Started(run, i).value
            && run.states[j].jobs[job].count == e.count
  {
    var s, e := run.states[i], run.events[i];
    assert StepAt(run, i);
    Registry.CreateExact(s.registry, e.agent, e.count, |s.jobs|);
    FindsItsOwn(run, i + 1, j, e.agent, Started(run, i).value, e.agent);
    CountStays(run, i + 1, j, |s.jobs|);
  }

  /** What a Create returns. */
  function Started(run: Run, i: nat): Result<JobId, Registry.CreateError>
    requires i < |run.events| && i < |run.states| && run.events[i].Create?
  {
    Registry.Create(run.states[i].registry, run.events[i].agent, run.events[i].count, |run.states[i].jobs|).1
  }

  lemma CountKept(s: State, event: Event, k: nat)
    requires Enabled(s, event) && k < |s.jobs|
    ensures k < |Apply(s, event).jobs| && Apply(s, event).jobs[k].count == s.jobs[k].count
    ensures Apply(s, event).jobs[k].id == s.jobs[k].id
  {
    MovesByItsOwn(s, event, k);
    var inner := Behind(s, event, k);
    if inner.Some? {
      JobTheorems.KeepsId(s.jobs[k], inner.value);
    }
  }

  lemma {:induction false} CountStays(run: Run, i: nat, j: nat, k: nat)
    requires IsRun(run) && i <= j < |run.states| && k < |run.states[i].jobs|
    ensures k < |run.states[j].jobs| && run.states[j].jobs[k].count == run.states[i].jobs[k].count
    ensures run.states[j].jobs[k].id == run.states[i].jobs[k].id
    decreases j - i
  {
    if i < j {
      CountStays(run, i, j - 1, k);
      assert StepAt(run, j - 1);
      CountKept(run.states[j - 1], run.events[j - 1], k);
    }
  }

  // Stop.

  /** A Stop RPC calls Stop on the job its agent owns under the id, and does nothing else. */
  lemma StopRpcExact(s: State, agent: AgentId, id: JobId, call: nat)
    requires RegistryInv(s) && Enabled(s, StopRpc(agent, id, call))
    ensures var after, found := Apply(s, StopRpc(agent, id, call)), Registry.Find(s.registry, agent, id);
            match found
            case None => after == s
            case Some(k) =>
              && k < |s.jobs|
              && after == s.(jobs := s.jobs[k := after.jobs[k]])
              && after.jobs[k] == s.jobs[k].(stops := s.jobs[k].stops[Job.Client(call) := Job.BeforeCancel])
  {
    if Registry.Find(s.registry, agent, id).Some? {
      IsTheOnlyOne(s, agent, id);
    }
  }

  /** An agent that owns the job called Stop on it. */
  ghost predicate OwnerCalledStop(run: Run, i: nat, k: nat, call: nat)
    requires IsRun(run) && i < |run.states|
  {
    exists a: nat, agent, id ::
      a < i && run.events[a] == StopRpc(agent, id, call) && Registry.Find(run.states[i].registry, agent, id) == Some(k)
  }

  lemma NewClient(s: State, event: Event, k: nat, call: nat)
    requires Enabled(s, event) && k < |Apply(s, event).jobs|
    requires Job.Client(call) in Apply(s, event).jobs[k].stops
    ensures k < |s.jobs|
    ensures Job.Client(call) in s.jobs[k].stops ||
            (event.StopRpc? && event.call == call && Registry.Find(s.registry, event.agent, event.id) == Some(k))
  {
    if event.Create? {
      BeginsFresh(s, event.agent, event.count, event.now);
    }
    if k < |s.jobs| {
      MovesByItsOwn(s, event, k);
      var inner := Behind(s, event, k);
      if inner.Some? && Job.Client(call) !in s.jobs[k].stops {
        NewCaller(s.jobs[k], inner.value, Job.Client(call));
      }
    }
  }

  lemma NewCaller(job: Job.State, event: Job.Event, caller: Job.Caller)
    requires Job.Enabled(job, event) && caller !in job.stops && caller in Job.Apply(job, event).stops
    ensures event == Job.CallStop(caller)
  {
  }

  lemma FoundLater(run: Run, i: nat, agent: AgentId, id: JobId)
    requires IsRun(run) && i < |run.events|
    requires Registry.Find(run.states[i].registry, agent, id).Some?
    ensures Registry.Find(run.states[i + 1].registry, agent, id) == Registry.Find(run.states[i].registry, agent, id)
  {
    FindsItsOwn(run, i, i + 1, agent, id, agent);
  }

  lemma OwnerStays(run: Run, i: nat, k: nat, call: nat)
    requires IsRun(run) && i < |run.events| && OwnerCalledStop(run, i, k, call)
    ensures OwnerCalledStop(run, i + 1, k, call)
  {
    var a: nat, agent, id :| a < i && run.events[a] == StopRpc(agent, id, call)
                             && Registry.Find(run.states[i].registry, agent, id) == Some(k);
    FoundLater(run, i, agent, id);
  }

  lemma OwnerCallsNow(run: Run, i: nat, k: nat, call: nat)
    requires IsRun(run) && i < |run.events|
    requires run.events[i].StopRpc? && run.events[i].call == call
    requires Registry.Find(run.states[i].registry, run.events[i].agent, run.events[i].id) == Some(k)
    ensures OwnerCalledStop(run, i + 1, k, call)
  {
    FoundLater(run, i, run.events[i].agent, run.events[i].id);
    assert run.events[i] == StopRpc(run.events[i].agent, run.events[i].id, call);
  }

  /** Only an agent that owns a job can call Stop on it. */
  lemma {:induction false} StopsAreOwners(run: Run, i: nat, k: nat, call: nat)
    requires IsRun(run) && i < |run.states| && k < |run.states[i].jobs|
    requires Job.Client(call) in run.states[i].jobs[k].stops
    ensures OwnerCalledStop(run, i, k, call)
  {
    if i > 0 {
      var s, e := run.states[i - 1], run.events[i - 1];
      assert StepAt(run, i - 1);
      NewClient(s, e, k, call);
      if Job.Client(call) in s.jobs[k].stops {
        StopsAreOwners(run, i - 1, k, call);
        OwnerStays(run, i - 1, k, call);
      } else {
        OwnerCallsNow(run, i - 1, k, call);
      }
    }
  }

  /** A job is STOPPED only if its owner called Stop on it or the registry was being shut down. */
  lemma StoppedByOwnerOrShutdown(run: Run, i: nat, k: nat)
    requires IsRun(run) && i < |run.states| && k < |run.states[i].jobs|
    requires run.states[i].jobs[k].shared.status == Ticks.Stopped
    ensures (exists call: nat :: OwnerCalledStop(run, i, k, call)) || run.states[i].shutdowns != map[]
  {
    StoppedJobWasStopped(run, i, k);
    var job := run.states[i].jobs[k];
    var c :| c in job.stops && !job.stops[c].BeforeCancel?;
    match c
    case Client(call) => StopsAreOwners(run, i, k, call);
    case Closer(call) =>
      InvHolds(run, i);
      assert NoStrayStops(run.states[i]) && HasStop(job, call);
      assert call in run.states[i].shutdowns;
  }

  // Streams.

  /** The handler was admitted with this request. */
  ghost predicate AskedFor(run: Run, i: nat, h: nat, agent: AgentId, id: JobId)
    requires IsRun(run)
  {
    exists a: nat :: a < i && a < |run.events| && run.events[a] == Admit(h, agent, id)
  }

  /** The handler looked and there was nothing under the request. */
  ghost predicate FoundNothing(run: Run, i: nat, h: nat, agent: AgentId, id: JobId)
    requires IsRun(run)
  {
    exists b: nat :: b < i && b < |run.events| && run.events[b] == OpenStream(h)
                     && Registry.Find(run.states[b].registry, agent, id).None?
  }

  ghost predicate StandsFor(run: Run, i: nat, h: nat, agent: AgentId, id: JobId)
    requires IsRun(run) && i < |run.states| && h in run.states[i].handlers
  {
    match run.states[i].handlers[h]
    case Admitted(a, d) => a == agent && d == id
    case Streaming(k) => Registry.Find(run.states[i].registry, agent, id) == Some(k)
    case NotFound => FoundNothing(run, i, h, agent, id)
  }

  lemma HandlerStep(s: State, event: Event, h: nat)
    requires Enabled(s, event) && h in Apply(s, event).handlers
    ensures var now := Apply(s, event).handlers[h];
            || (h in s.handlers && now == s.handlers[h])
            || (h !in s.handlers && event.Admit? && event.handler == h && now == Admitted(event.agent, event.id))
            || (&& event == OpenStream(h) && IsAdmitted(s, h)
                && now == match Requested(s, h) case Some(k) => Streaming(k) case None => NotFound)
  {
  }

  /** A stream is of the job that the agent that asked for it owns under the id it asked for, and a
      request is turned away only if that agent owned nothing under that id. */
  lemma {:induction false} StreamsAreOwners(run: Run, i: nat, h: nat) returns (agent: AgentId, id: JobId)
    requires IsRun(run) && i < |run.states| && h in run.states[i].handlers
    ensures AskedFor(run, i, h, agent, id) && StandsFor(run, i, h, agent, id)
  {
    var s, e := run.states[i - 1], run.events[i - 1];
    assert StepAt(run, i - 1);
    HandlerStep(s, e, h);
    if h in s.handlers {
      agent, id := StreamsAreOwners(run, i - 1, h);
      var a: nat :| a < i - 1 && run.events[a] == Admit(h, agent, id);
      if Registry.Find(s.registry, agent, id).Some? {
        FoundLater(run, i - 1, agent, id);
      }
    } else {
      agent, id := e.agent, e.id;
    }
  }

  // What ends Serve.

  /** The transport came back with this, once. */
  lemma {:induction false} ServedIff(run: Run, i: nat, end: TransportEnd)
    requires IsRun(run) && i < |run.states|
    ensures run.states[i].served == Some(end) <==> exists k: nat :: k < i && run.events[k] == TransportEnds(end)
    ensures run.states[i].served.None? ==> forall k: nat :: k < i ==> !run.events[k].TransportEnds?
  {
    if i > 0 {
      var s, e := run.states[i - 1], run.events[i - 1];
      ServedIff(run, i - 1, end);
      assert StepAt(run, i - 1);
      ServedStep(s, e);
      if run.states[i].served == Some(end) && e != TransportEnds(end) {
        assert s.served == Some(end);
      }
    }
  }

  lemma ServedStep(s: State, event: Event)
    requires Enabled(s, event)
    ensures event.TransportEnds? ==> s.served.None? && Apply(s, event).served == Some(event.end)
    ensures !event.TransportEnds? ==> Apply(s, event).served == s.served
  {
  }

  lemma ContextStep(s: State, event: Event)
    requires Enabled(s, event)
    ensures Apply(s, event).contextDone <==> s.contextDone || event.ContextEnds?
  {
  }

  lemma {:induction false} ContextIff(run: Run, i: nat)
    requires IsRun(run) && i < |run.states|
    ensures run.states[i].contextDone <==> exists k: nat :: k < i && run.events[k] == ContextEnds
  {
    if i > 0 {
      ContextIff(run, i - 1);
      assert StepAt(run, i - 1);
      ContextStep(run.states[i - 1], run.events[i - 1]);
    }
  }

  /** Serve can leave its select exactly if its context or the transport has ended. */
  lemma ListeningExact(run: Run, i: nat)
    requires IsRun(run) && i < |run.states| && run.states[i].serve.Listening?
    ensures Enabled(run.states[i], SeeContext) <==> exists k: nat :: k < i && run.events[k] == ContextEnds
    ensures Enabled(run.states[i], SeeTransportEnd) <==>
            exists k: nat, end :: k < i && run.events[k] == TransportEnds(end)
  {
    ContextIff(run, i);
    var s := run.states[i];
    if s.served.Some? {
      ServedIff(run, i, s.served.value);
    } else {
      ServedIff(run, i, CleanEnd);
    }
  }

  /** What Serve then starts is the shutdown, whose grace may run out at any moment until the drain is
      seen; and then the transport can be cut, which ends the admission of RPCs. */
  lemma ShutdownBegins(s: State, event: Event)
    requires Enabled(s, event) && (event.SeeContext? || event.SeeTransportEnd?)
    ensures var after := Apply(s, event);
            && after.serve.Draining? && after.drain.StoppingJobs?
            && BY_SERVE in after.shutdowns && after.shutdowns[BY_SERVE] == BeforeLock
  {
  }

  lemma GraceCuts(s: State)
    requires s.serve.Draining?
    ensures Enabled(s, GraceExpires) && Enabled(Apply(s, GraceExpires), CutTransport)
    ensures var after := Apply(Apply(s, GraceExpires), CutTransport); after.cut && after.draining
  {
  }

  lemma {:induction false} ShutdownHasReason(run: Run, i: nat)
    requires IsRun(run) && i < |run.states| && !run.states[i].serve.Listening?
    ensures exists k: nat :: k < i && (run.events[k].ContextEnds? || run.events[k].TransportEnds?)
  {
    if i > 0 {
      var s := run.states[i - 1];
      assert StepAt(run, i - 1);
      if s.serve.Listening? {
        ContextIff(run, i - 1);
        if s.served.Some? {
          ServedIff(run, i - 1, s.served.value);
        }
      } else {
        ShutdownHasReason(run, i - 1);
        var k: nat :| k < i - 1 && (run.events[k].ContextEnds? || run.events[k].TransportEnds?);
      }
    }
  }

  /** Serve has the transport's result in hand, or has returned. */
  predicate HasResult(point: ServePoint) {
    match point
    case Draining(first) => first.Some?
    case Cutting(first) => first.Some?
    case AwaitingDrain(first) => first.Some?
    case Done(_) => true
    case _ => false
  }

  lemma OthersLeaveServe(s: State, event: Event)
    requires Enabled(s, event) && (OfJobs(event) || OfShutdown(event))
    ensures Apply(s, event).serve == s.serve
  {
  }

  lemma KeepsResult(s: State, event: Event)
    requires Enabled(s, event) && HasResult(s.serve)
    ensures HasResult(Apply(s, event).serve) && !event.CollectEnd?
  {
    if OfJobs(event) || OfShutdown(event) {
      OthersLeaveServe(s, event);
    }
  }

  lemma {:induction false} HasResultStays(run: Run, i: nat, j: nat)
    requires IsRun(run) && i < j < |run.states| && run.events[i].SeeTransportEnd?
    ensures HasResult(run.states[j].serve)
    decreases j
  {
    if i < j - 1 {
      HasResultStays(run, i, j - 1);
      assert StepAt(run, j - 1);
      KeepsResult(run.states[j - 1], run.events[j - 1]);
    } else {
      InvHolds(run, i);
      assert StepAt(run, i);
    }
  }

  /** Serve receives the transport's result once: where its select did, it does not wait for another. */
  lemma ReceivesOnce(run: Run, i: nat, j: nat)
    requires IsRun(run) && i < j < |run.events| && run.events[i].SeeTransportEnd?
    ensures !run.events[j].CollectEnd? && !run.events[j].SeeTransportEnd?
    ensures !run.states[j].serve.Collecting?
  {
    HasResultStays(run, i, j);
    assert StepAt(run, j);
  }

  // What can happen next.

  /** What comes from outside can come at any time: Starts, Stops, the context, the transport's end and
      further Shutdown calls; streams are asked for until the transport drains; and a job moves as it
      would by itself, but for calls on it and the end of its parent context. */
  lemma OutsideIsFree(s: State, agent: AgentId, id: JobId, n: nat, end: TransportEnd)
    ensures Enabled(s, Create(agent, n, n)) && Enabled(s, ContextEnds)
    ensures Enabled(s, Admit(n, agent, id)) <==> !s.draining && n !in s.handlers
    ensures Enabled(s, CallShutdown(n)) <==> n != BY_SERVE && n !in s.shutdowns
    ensures Enabled(s, TransportEnds(end)) <==> s.served.None?
    ensures s.drain.InGracefulStop? && s.cut ==> Enabled(s, GracefulStopReturns)
  {
  }

  lemma JobsAreFree(s: State, k: nat, event: Job.Event)
    requires k < |s.jobs| && Job.Enabled(s.jobs[k], event)
    ensures Enabled(s, JobMoves(k, event)) || event.CallStop? || event.Open? || event.ParentDone?
  {
  }

  /** An agent can call Stop on what it finds any number of times. */
  lemma StopIsFree(run: Run, i: nat, agent: AgentId, id: JobId, call: nat)
    requires IsRun(run) && i < |run.states|
    ensures var s := run.states[i];
            Enabled(s, StopRpc(agent, id, call)) <==>
              match Registry.Find(s.registry, agent, id)
              case None => true
              case Some(k) => k < |s.jobs| && Job.Client(call) !in s.jobs[k].stops
  {
  }
}
