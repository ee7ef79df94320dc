/** What every run of the server guarantees. */
module ServerTheorems {
  import opened Wrappers
  import opened JobIds
  import opened ServerProtocol
  import opened ServerInvariant
  import Registry = RegistryModel
  import Job = JobProtocol
  import JobInv = JobInvariant
  import JobTheorems
  import JobState
  import Ticks
  import Wire

  // Runs.

  lemma {:induction false} InvHolds(run: Run, i: nat)
    requires IsRun(run) && i < |run.states|
    ensures Inv(run.states[i])
  {
    if i > 0 {
      InvHolds(run, i - 1);
      assert StepAt(run, i - 1);
      ApplyKeeps(run.states[i - 1], run.events[i - 1]);
    }
  }

  /** The event of one job behind an event of the server, if there is one. */
  function Behind(s: State, event: Event, job: nat): Option<Job.Event> {
    match event
    case JobMoves(moved, inner) => if moved == job then Some(inner) else None
    case SpawnStop(call, moved) => if moved == job then Some(Job.CallStop(Job.Closer(call))) else None
    case StopRpc(agent, id, call) =>
      if Registry.Find(s.registry, agent, id) == Some(job) then Some(Job.CallStop(Job.Client(call))) else None
    case OpenStream(handler) =>
      if IsAdmitted(s, handler) && Requested(s, handler) == Some(job) then Some(Job.Open(handler)) else None
    case _ => None
  }

  /** No other event touches a job. */
  lemma OthersLeaveJobs(s: State, event: Event)
    requires Enabled(s, event) && !event.SpawnStop?
    requires OfJobs(event) ==> event.Admit?
    ensures Apply(s, event).jobs == s.jobs
  {
  }

  /** One step of one job under the server. */
  ghost predicate MovesBy(before: Job.State, inner: Option<Job.Event>, after: Job.State) {
    match inner
    case Some(event) => Job.Enabled(before, event) && after == Job.Apply(before, event)
    case None => after == before
  }

  lemma CallsMoveOne(s: State, event: Event, job: nat)
    requires Enabled(s, event) && job < |s.jobs|
    requires event.StopRpc? || event.OpenStream? || event.JobMoves? || event.SpawnStop?
    ensures MovesBy(s.jobs[job], Behind(s, event, job), Apply(s, event).jobs[job])
  {
  }

  /** The server moves a job by one of its own events, or not at all. */
  lemma MovesByItsOwn(s: State, event: Event, job: nat)
    requires Enabled(s, event) && job < |s.jobs|
    ensures |s.jobs| <= |Apply(s, event).jobs|
    ensures MovesBy(s.jobs[job], Behind(s, event, job), Apply(s, event).jobs[job])
  {
    match event
    case Create(agent, count, now) => BeginsFresh(s, agent, count, now);
    case StopRpc(_, _, _) => CallsMoveOne(s, event, job);
    case OpenStream(_) => CallsMoveOne(s, event, job);
    case JobMoves(_, _) => CallsMoveOne(s, event, job);
    case SpawnStop(_, _) => CallsMoveOne(s, event, job);
    case _ => OthersLeaveJobs(s, event);
  }

  /** Every job of the server goes through a run of JobProtocol: what holds of every such run holds
      of every job. */
  lemma {:induction false} JobsRun(run: Run, i: nat, job: nat) returns (own: Job.Run)
    requires IsRun(run) && i < |run.states| && job < |run.states[i].jobs|
    ensures Job.IsRun(own)
    ensures own.states[|own.events|] == run.states[i].jobs[job]
  {
    var s, e := run.states[i - 1], run.events[i - 1];
    assert StepAt(run, i - 1);
    if job < |s.jobs| {
      own := JobsRun(run, i - 1, job);
      MovesByItsOwn(s, e, job);
      var inner := Behind(s, e, job);
      if inner.Some? {
        JobTheorems.RunGrows(own, inner.value);
        own := JobTheorems.Longer(own, inner.value);
      }
    } else {
      BeginsFresh(s, e.agent, e.count, e.now);
      own := Job.Run([run.states[i].jobs[job]], []);
    }
  }

  /** Jobs are never removed, keep their ids and only ever append. */
  ghost predicate GoOn(before: seq<Job.State>, after: seq<Job.State>) {
    && |before| <= |after|
    && forall k :: 0 <= k < |before| ==>
         after[k].id == before[k].id && JobState.Extends(before[k].shared, after[k].shared)
  }

  lemma GoOnFurther(first: seq<Job.State>, second: seq<Job.State>, third: seq<Job.State>)
    requires GoOn(first, second) && GoOn(second, third)
    ensures GoOn(first, third)
  {
  }

  lemma AllGoOn(s: State, event: Event)
    requires Inv(s) && Enabled(s, event)
    ensures GoOn(s.jobs, Apply(s, event).jobs)
  {
    forall k | 0 <= k < |s.jobs|
      ensures Apply(s, event).jobs[k].id == s.jobs[k].id
      ensures JobState.Extends(s.jobs[k].shared, Apply(s, event).jobs[k].shared)
    {
      JobGoesOn(s, event, k);
    }
  }

  lemma OneStepOn(run: Run, k: nat)
    requires IsRun(run) && k < |run.events|
    ensures GoOn(run.states[k].jobs, run.states[k + 1].jobs)
  {
    InvHolds(run, k);
    assert StepAt(run, k);
    AllGoOn(run.states[k], run.events[k]);
  }

  lemma {:induction false} JobsGo(run: Run, i: nat, j: nat)
    requires IsRun(run) && i <= j < |run.states|
    ensures GoOn(run.states[i].jobs, run.states[j].jobs)
    decreases j - i
  {
    if i < j {
      JobsGo(run, i, j - 1);
      OneStepOn(run, j - 1);
      GoOnFurther(run.states[i].jobs, run.states[j - 1].jobs, run.states[j].jobs);
    }
  }

  lemma {:induction false} ClosedStays(run: Run, i: nat, j: nat)
    requires IsRun(run) && i <= j < |run.states| && !run.states[i].registry.accepting
    ensures !run.states[j].registry.accepting && |run.states[j].jobs| == |run.states[i].jobs|
    decreases j - i
  {
    if i < j {
      ClosedStays(run, i, j - 1);
      assert StepAt(run, j - 1);
      StaysClosed(run.states[j - 1], run.events[j - 1]);
    }
  }

  /** Jobs are never removed, keep their ids and only ever append; a closed registry stays closed and
      starts no further job. */
  lemma JobsGoOn(run: Run, i: nat, j: nat)
    requires IsRun(run) && i <= j < |run.states|
    ensures |run.states[i].jobs| <= |run.states[j].jobs|
    ensures forall k :: 0 <= k < |run.states[i].jobs| ==>
              && run.states[j].jobs[k].id == run.states[i].jobs[k].id
              && JobState.Extends(run.states[i].jobs[k].shared, run.states[j].jobs[k].shared)
    ensures !run.states[i].registry.accepting ==>
              !run.states[j].registry.accepting && |run.states[j].jobs| == |run.states[i].jobs|
  {
    JobsGo(run, i, j);
    if !run.states[i].registry.accepting {
      ClosedStays(run, i, j);
    }
  }

  lemma JobGoesOn(s: State, event: Event, k: nat)
    requires Inv(s) && Enabled(s, event) && k < |s.jobs|
    ensures k < |Apply(s, event).jobs|
    ensures Apply(s, event).jobs[k].id == s.jobs[k].id
    ensures JobState.Extends(s.jobs[k].shared, Apply(s, event).jobs[k].shared)
  {
    MovesByItsOwn(s, event, k);
    var inner := Behind(s, event, k);
    if inner.Some? {
      JobTheorems.KeepsId(s.jobs[k], inner.value);
      JobInv.ApplyExtends(s.jobs[k], inner.value);
    }
  }

  lemma StaysClosed(s: State, event: Event)
    requires Enabled(s, event) && !s.registry.accepting
    ensures !Apply(s, event).registry.accepting && |Apply(s, event).jobs| == |s.jobs|
  {
    if event.Create? && |Apply(s, event).jobs| != |s.jobs| {
      BeginsFresh(s, event.agent, event.count, event.now);
    }
  }

  // Ownership.

  lemma {:induction false} HistoryGrows(run: Run, i: nat, j: nat)
    requires IsRun(run) && i <= j < |run.states|
    ensures run.states[i].ops <= run.states[j].ops
    decreases j - i
  {
    if i < j {
      HistoryGrows(run, i, j - 1);
      assert StepAt(run, j - 1);
    }
  }

  /** An agent reaches the job it started under that id, then and ever after, and no other agent
      reaches it at any time. */
  lemma FindsItsOwn(run: Run, i: nat, j: nat, agent: AgentId, id: JobId, other: AgentId)
    requires IsRun(run) && i <= j < |run.states|
    requires Registry.Find(run.states[i].registry, agent, id).Some?
    ensures var job := Registry.Find(run.states[i].registry, agent, id).value;
            && job < |run.states[i].jobs| && run.states[i].jobs[job].id == id
            && (forall k :: 0 <= k < |run.states[i].jobs| && run.states[i].jobs[k].id == id ==> k == job)
            && Registry.Find(run.states[j].registry, agent, id) == Some(job)
    ensures other != agent ==> Registry.Find(run.states[j].registry, other, id).None?
  {
    InvHolds(run, i);
    InvHolds(run, j);
    HistoryGrows(run, i, j);
    var later := run.states[j].ops[|run.states[i].ops|..];
    assert run.states[j].ops == run.states[i].ops + later;
    IsTheOnlyOne(run.states[i], agent, id);
    Registry.FindPersists(run.states[i].ops, later, agent, id);
    if other != agent && Registry.Find(run.states[j].registry, other, id).Some? {
      Registry.OneOwner(run.states[i].ops, later, agent, other, id);
    }
  }

  lemma IsTheOnlyOne(s: State, agent: AgentId, id: JobId)
    requires RegistryInv(s) && Registry.Find(s.registry, agent, id).Some?
    ensures var job := Registry.Find(s.registry, agent, id).value;
            && job < |s.jobs| && s.jobs[job].id == id
            && (forall k :: 0 <= k < |s.jobs| && s.jobs[k].id == id ==> k == job)
  {
    var job := Registry.Find(s.registry, agent, id).value;
    var minted := Registry.AllMinted(s.ops);
    Registry.FoundIffMinted(s.ops, agent, id, job);
    var k :| 0 <= k < |minted| && minted[k] == Registry.Minted(agent, id, job);
    forall q | 0 <= q < |s.jobs| && s.jobs[q].id == id ensures q == job {
      if q < job {
        Registry.IdsAreUnique(s.ops, q, job);
      } else if job < q {
        Registry.IdsAreUnique(s.ops, job, q);
      }
    }
  }

  // Shutdown.

  lemma StopDoneMeansTerminal(job: Job.State, call: nat)
    requires JobInv.Inv(job) && StopDone(job, call)
    ensures job.shared.status != Ticks.Running
  {
    assert JobInv.StopInv(job, job.stops[Job.Closer(call)]);
  }

  /** Once any Shutdown call has returned, every job ever registered has finished, and none is ever
      registered again. */
  lemma ShutdownComplete(run: Run, i: nat, call: nat, j: nat)
    requires IsRun(run) && i <= j < |run.states|
    requires call in run.states[i].shutdowns && run.states[i].shutdowns[call].ShutdownDone?
    ensures !run.states[j].registry.accepting && |run.states[j].jobs| == |run.states[i].jobs|
    ensures forall k :: 0 <= k < |run.states[j].jobs| ==> run.states[j].jobs[k].shared.status != Ticks.Running
    ensures forall k :: 0 <= k < |run.states[j].jobs| ==>
              run.states[j].jobs[k].shared == run.states[i].jobs[k].shared
  {
    InvHolds(run, i);
    JobsGoOn(run, i, j);
    var s := run.states[i];
    assert ShutdownInv(s.registry.accepting, s.jobs, call, s.shutdowns[call]);
    forall k | 0 <= k < |s.jobs|
      ensures run.states[j].jobs[k].shared == s.jobs[k].shared && s.jobs[k].shared.status != Ticks.Running
    {
      StopDoneMeansTerminal(s.jobs[k], call);
    }
  }

  /** A Create after the lock of a Shutdown is turned away. */
  lemma NoCreateAfterLock(run: Run, i: nat, j: nat, agent: AgentId, count: int, now: int)
    requires IsRun(run) && i < j < |run.events|
    requires run.events[i].LockShutdown? && run.events[j] == Create(agent, count, now)
    ensures Registry.Create(run.states[j].registry, agent, count, |run.states[j].jobs|).1 ==
            Failure(Registry.NotAcceptingJobs)
    ensures |run.states[j + 1].jobs| == |run.states[i].jobs|
  {
    assert StepAt(run, i);
    JobsGoOn(run, i + 1, j);
    JobsGoOn(run, i + 1, j + 1);
  }

  /** In the server a job is stopped by a Stop call only: an RPC's or a Shutdown's. */
  lemma {:induction false} StoppedByACall(run: Run, i: nat, job: nat)
    requires IsRun(run) && i < |run.states| && job < |run.states[i].jobs|
    requires run.states[i].jobs[job].requested
    ensures exists c :: c in run.states[i].jobs[job].stops && !run.states[i].jobs[job].stops[c].BeforeCancel?
  {
    var s, e := run.states[i - 1], run.events[i - 1];
    assert StepAt(run, i - 1);
    if job < |s.jobs| {
      MovesByItsOwn(s, e, job);
      if s.jobs[job].requested {
        StoppedByACall(run, i - 1, job);
      }
      var inner := Behind(s, e, job);
      if inner.Some? {
        CancelledByACall(s.jobs[job], inner.value);
      }
    } else {
      BeginsFresh(s, e.agent, e.count, e.now);
    }
  }

  lemma CancelledByACall(job: Job.State, event: Job.Event)
    requires Job.Enabled(job, event) && !event.ParentDone?
    requires job.requested ==> exists c :: c in job.stops && !job.stops[c].BeforeCancel?
    ensures Job.Apply(job, event).requested ==>
              exists c :: c in Job.Apply(job, event).stops && !Job.Apply(job, event).stops[c].BeforeCancel?
  {
    var after := Job.Apply(job, event);
    if after.requested {
      if job.requested {
        var c :| c in job.stops && !job.stops[c].BeforeCancel?;
        assert c in after.stops && !after.stops[c].BeforeCancel?;
      } else {
        assert event.StopStep? && event.caller in after.stops && !after.stops[event.caller].BeforeCancel?;
      }
    }
  }

  lemma StoppedJobWasStopped(run: Run, i: nat, job: nat)
    requires IsRun(run) && i < |run.states| && job < |run.states[i].jobs|
    requires run.states[i].jobs[job].shared.status == Ticks.Stopped
    ensures exists c :: c in run.states[i].jobs[job].stops && !run.states[i].jobs[job].stops[c].BeforeCancel?
  {
    InvHolds(run, i);
    assert JobInv.Inv(run.states[i].jobs[job]);
    StoppedByACall(run, i, job);
  }

  // Serve.

  lemma SentinelReaderIsWhole(job: Job.State, r: nat)
    requires JobInv.Inv(job) && r in job.readers
    requires job.readers[r].point == Job.Returned(Job.SentinelSeen)
    ensures job.shared.status != Ticks.Running
    ensures job.readers[r].yielded == job.shared.ticks
    ensures |job.shared.ticks| > 0
    ensures Ticks.Announces(job.shared.ticks[|job.shared.ticks| - 1], job.shared.status)
  {
    var reader := job.readers[r];
    assert JobInv.ReaderInv(job.shared, reader);
    JobState.SentinelIsLast(job.count, job.shared, |reader.yielded| - 1);
  }

  /** A handler is finished because a send failed, because its context ended, or because it has sent the
      wire image of the whole final buffer, sentinel included. */
  ghost predicate Delivered(job: Job.State, r: nat)
    requires r in job.readers
  {
    var reader := job.readers[r];
    || reader.point == Job.Returned(Job.ConsumerStopped)
    || (reader.point == Job.Returned(Job.ContextEnded) && reader.contextDone)
    || (&& reader.point == Job.Returned(Job.SentinelSeen)
        && job.shared.status != Ticks.Running
        && |job.shared.ticks| > 0
        && Ticks.Announces(job.shared.ticks[|job.shared.ticks| - 1], job.shared.status)
        && Wire.Sent(reader) == Wire.ProtoTicks(job.shared.ticks))
  }

  /** Whenever Serve returns, on whichever branch and whether or not the grace expired, every job has
      finished. If it returns nil, every handler has returned too, each stream with its sentinel
      delivered unless its client left. */
  lemma ServeReturns(run: Run, i: nat)
    requires IsRun(run) && i < |run.states| && run.states[i].serve.Done?
    ensures forall k :: 0 <= k < |run.states[i].jobs| ==> run.states[i].jobs[k].shared.status != Ticks.Running
    ensures !run.states[i].registry.accepting
    ensures run.states[i].serve == Done(ServedNil) ==>
              && HandlersReturned(run.states[i])
              && forall k, r :: 0 <= k < |run.states[i].jobs| && r in run.states[i].jobs[k].readers ==>
                   run.states[i].jobs[k].readers[r].point.Returned? && Delivered(run.states[i].jobs[k], r)
  {
    InvHolds(run, i);
    ShutdownComplete(run, i, BY_SERVE, i);
    var s := run.states[i];
    if s.serve == Done(ServedNil) {
      forall k, r | 0 <= k < |s.jobs| && r in s.jobs[k].readers
        ensures s.jobs[k].readers[r].point.Returned? && Delivered(s.jobs[k], r)
      {
        StreamDelivered(s.jobs[k], r);
      }
    }
  }

  /** What Serve returns tells the three endings apart: the transport broke, or else the grace expired
      and the streams were cut off, or else everything drained. */
  lemma ServeResultExact(run: Run, i: nat)
    requires IsRun(run) && i < |run.states| && run.states[i].serve.Done?
    ensures var s := run.states[i];
            && s.served.Some?
            && (s.serve.result == ServeFailed <==> s.served == Some(Broken))
            && (s.serve.result == GraceElapsed <==> s.served != Some(Broken) && s.cut)
            && (s.serve.result == ServedNil <==> s.served != Some(Broken) && !s.cut)
            && (s.cut <==> exists k: nat :: k < i && run.events[k] == CutTransport)
  {
    InvHolds(run, i);
    CutByServe(run, i);
  }

  lemma {:induction false} CutByServe(run: Run, i: nat)
    requires IsRun(run) && i < |run.states|
    ensures run.states[i].cut <==> exists k: nat :: k < i && run.events[k] == CutTransport
  {
    if i > 0 {
      CutByServe(run, i - 1);
      assert StepAt(run, i - 1);
    }
  }

  lemma StreamDelivered(job: Job.State, r: nat)
    requires JobInv.Inv(job) && r in job.readers && job.readers[r].point.Returned?
    ensures Delivered(job, r)
  {
    assert JobInv.ReaderInv(job.shared, job.readers[r]);
    if job.readers[r].point == Job.Returned(Job.SentinelSeen) {
      SentinelReaderIsWhole(job, r);
    }
  }
}
