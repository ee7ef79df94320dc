/** What every run of one job guarantees. */
module JobTheorems {
  import opened Wrappers
  import opened Ticks
  import opened JobState
  import opened JobProtocol
  import opened JobInvariant

  // Runs.

  lemma {:induction false} InvHolds(run: Run, i: nat)
    requires IsPath(run) && i < |run.states|
    requires StartsAt(run, run.states[0].count) && 1 <= run.states[0].count
    ensures Inv(run.states[i])
    ensures run.states[i].count == run.states[0].count
    ensures run.states[i].id == run.states[0].id
  {
    if i == 0 {
      InitialInv(run.states[0].id, run.states[0].count, run.states[0].now);
    } else {
      InvHolds(run, i - 1);
      assert StepAt(run, i - 1);
      ApplyKeeps(run.states[i - 1], run.events[i - 1]);
    }
  }

  lemma KeepsId(s: State, event: Event)
    requires Enabled(s, event)
    ensures Apply(s, event).id == s.id && Apply(s, event).count == s.count
  {
  }

  lemma {:induction false} ExtendsAlong(run: Run, i: nat, j: nat)
    requires IsRun(run) && i <= j < |run.states|
    ensures Extends(run.states[i].shared, run.states[j].shared)
    decreases j - i
  {
    if i < j {
      ExtendsAlong(run, i, j - 1);
      InvHolds(run, j - 1);
      assert StepAt(run, j - 1);
      ApplyExtends(run.states[j - 1], run.events[j - 1]);
    }
  }

  /** NewJob takes exactly the counts from 1 to 100, with an interval above zero; of two faults it
      reports the count. */
  lemma RejectionExact(count: int, meanInterval: int)
    ensures Rejection(count, meanInterval).None? <==> 1 <= count <= 100 && 0 < meanInterval
    ensures Rejection(count, meanInterval) == Some(InvalidCount) <==> !(1 <= count <= 100)
  {
  }

  // The buffer and the worker.

  lemma CountdownPrefix(count: int, ticks: seq<Tick>)
    requires |ticks| <= count
    requires forall i :: 0 <= i < |ticks| ==> ticks[i].Progress? && ticks[i].remaining == count - i
    ensures RemainingOf(ticks) <= Countdown(count)
    ensures |Countdown(count)| == count
  {
    if count > 0 {
      CountdownAt(count, 0);
    } else {
      assert ticks == [];
    }
    forall i | 0 <= i < |ticks| ensures RemainingOf(ticks)[i] == Countdown(count)[i] {
      CountdownAt(count, i);
    }
  }

  /** The buffer announces a prefix of the countdown, then at most one sentinel: exactly when the
      job has finished, in the last place, and of the kind its status asks for. */
  lemma BufferShape(run: Run, i: nat)
    requires IsRun(run) && i < |run.states|
    ensures var sh := run.states[i].shared;
            && 0 <= Body(sh) <= |sh.ticks| <= run.states[0].count + 1
            && RemainingOf(sh.ticks[..Body(sh)]) <= Countdown(run.states[0].count)
            && (forall k :: 0 <= k < |sh.ticks| ==>
                  (sh.ticks[k].IsTerminal() <==> sh.status != Running && k == |sh.ticks| - 1))
            && (sh.status != Running ==> Announces(sh.ticks[Body(sh)], sh.status))
            && (sh.status == Completed ==> RemainingOf(sh.ticks[..Body(sh)]) == Countdown(run.states[0].count))
  {
    InvHolds(run, i);
    var sh, count := run.states[i].shared, run.states[0].count;
    CountdownPrefix(count, sh.ticks[..Body(sh)]);
    forall k | 0 <= k < |sh.ticks|
      ensures sh.ticks[k].IsTerminal() <==> sh.status != Running && k == |sh.ticks| - 1
    {
      SentinelIsLast(count, sh, k);
    }
  }

  /** Progress starts at elapsed zero and never goes back. */
  lemma ElapsedInOrder(run: Run, i: nat)
    requires IsRun(run) && i < |run.states|
    ensures var ticks := run.states[i].shared.ticks;
            && (|ticks| > 0 && ticks[0].Progress? ==> ticks[0].elapsed == 0)
            && forall j, k :: 0 <= j < k < |ticks| && ticks[j].Progress? && ticks[k].Progress? ==>
                 0 <= ticks[j].elapsed <= ticks[k].elapsed
  {
    InvHolds(run, i);
  }

  /** What was appended stays, and nothing changes once the job has finished. */
  lemma AppendOnly(run: Run, i: nat, j: nat)
    requires IsRun(run) && i <= j < |run.states|
    ensures run.states[i].shared.ticks <= run.states[j].shared.ticks
    ensures run.states[i].shared.status != Running ==> run.states[j].shared == run.states[i].shared
  {
    ExtendsAlong(run, i, j);
  }

  /** The worker leaves by no other way than a terminal status, whatever panics on the way; the loop
      never falls through, no channel is closed twice, and changed is open while the job runs. */
  lemma WorkerExit(run: Run, i: nat)
    requires IsPath(run) && i < |run.states|
    requires StartsAt(run, run.states[0].count) && 1 <= run.states[0].count
    ensures var s := run.states[i];
            && (s.finished ==> s.shared.status != Running)
            && (s.writer.LoopHead? ==> 0 <= s.writer.current)
            && !s.shared.fault && !s.refinished
            && (s.shared.changed !in s.shared.closed <==> s.shared.status == Running)
            && (s.writer.Exited? ==> s.finished)
  {
    InvHolds(run, i);
  }

  function Longer(run: Run, event: Event): Run
    requires IsPath(run) && Enabled(run.states[|run.events|], event)
  {
    Run(run.states + [Apply(run.states[|run.events|], event)], run.events + [event])
  }

  /** A path goes on with any event that its last state allows. */
  lemma PathGrows(run: Run, event: Event)
    requires IsPath(run) && Enabled(run.states[|run.events|], event)
    ensures IsPath(Longer(run, event)) && Longer(run, event).states[0] == run.states[0]
  {
    var longer := Longer(run, event);
    forall k: nat | k < |longer.events| ensures StepAt(longer, k) {
      if k < |run.events| {
        assert StepAt(run, k);
      }
    }
  }

  lemma RunGrows(run: Run, event: Event)
    requires IsRun(run) && Enabled(run.states[|run.events|], event)
    ensures IsRun(Longer(run, event))
  {
    PathGrows(run, event);
  }

  lemma GoOnPath(run: Run, event: Event) returns (longer: Run, s: State)
    requires IsPath(run) && Enabled(run.states[|run.events|], event)
    ensures IsPath(longer) && longer.states[0] == run.states[0]
    ensures longer.states[|longer.events|] == s == Apply(run.states[|run.events|], event)
  {
    PathGrows(run, event);
    longer := Longer(run, event);
    s := longer.states[|longer.events|];
  }

  /** A count below one lets the worker leave a job that is still running. */
  lemma FallsThrough(count: int) returns (run: Run)
    requires count <= 0
    ensures IsPath(run) && StartsAt(run, count)
    ensures var s := run.states[|run.events|]; s.finished && s.shared.status == Running
  {
    var s := Initial("", count, 0);
    run := Run([s], []);
    run, s := GoOnPath(run, Write(Proceed));
    run, s := GoOnPath(run, Write(Proceed));
    run, s := GoOnPath(run, Write(Proceed));
    run, s := GoOnPath(run, Write(Proceed));
  }

  /** NewJob's lower bound is exactly what the worker's exit depends on. */
  lemma WorkerExitNeedsPositiveCount(count: int)
    ensures (forall run: Run, i: nat ::
               IsPath(run) && StartsAt(run, count) && i < |run.states| && run.states[i].finished ==>
                 run.states[i].shared.status != Running)
            <==> 1 <= count
  {
    if 1 <= count {
      forall run: Run, i: nat
        | IsPath(run) && StartsAt(run, count) && i < |run.states| && run.states[i].finished
        ensures run.states[i].shared.status != Running
      {
        WorkerExit(run, i);
      }
    } else {
      var run := FallsThrough(count);
      var i: nat := |run.events|;
      assert IsPath(run) && StartsAt(run, count) && i < |run.states| && run.states[i].finished;
    }
  }

  /** How many steps the writer has left at most. */
  function WriterMeasure(w: Writer, count: int): int {
    match w
    case Starting => 3 * count + 12
    case Announced => 3 * count + 11
    case LoopHead(current) => if current < 0 then 10 else 3 * current + 13
    case Selecting(current) => 3 * current + 12
    case Fired(current, _) => 3 * current + 11
    case Finishing(_, _, recovering) => if recovering then 4 else 7
    case Auditing(_, recovering) => if recovering then 3 else 6
    case Recovering(_) => 5
    case Closing => 2
    case Releasing => 1
    case Exited => 0
  }

  function Writes(events: seq<Event>): nat {
    if events == [] then 0 else Writes(events[..|events| - 1]) + (if events[|events| - 1].Write? then 1 else 0)
  }

  /** The loop counter stays in range. */
  ghost predicate InRange(w: Writer, count: int) {
    match w
    case LoopHead(current) => 0 <= current < count
    case Selecting(current) => 0 <= current < count
    case Fired(current, tick) => 0 <= current < count && (tick.IsTerminal() || 1 <= current)
    case _ => true
  }

  lemma LeavingStepsDown(s: State)
    requires IsLeaving(s.writer) || s.writer.Finishing?
    ensures 0 <= WriterMeasure(Proceeding(s).writer, s.count) < WriterMeasure(s.writer, s.count)
  {
  }

  lemma ProceedingStepsDown(s: State)
    requires 1 <= s.count && InRange(s.writer, s.count) && WriterEnabled(s, Proceed)
    ensures 0 <= WriterMeasure(Proceeding(s).writer, s.count) < WriterMeasure(s.writer, s.count)
  {
    if IsLeaving(s.writer) || s.writer.Finishing? {
      LeavingStepsDown(s);
    }
  }

  lemma WriterStepsDown(s: State, choice: WriterChoice)
    requires 1 <= s.count && InRange(s.writer, s.count) && WriterEnabled(s, choice)
    ensures 0 <= WriterMeasure(WriterStep(s, choice).writer, s.count) < WriterMeasure(s.writer, s.count)
  {
    if choice.Proceed? {
      ProceedingStepsDown(s);
    }
  }

  lemma OnlyWritesMoveTheWriter(s: State, event: Event)
    requires Enabled(s, event) && !event.Write?
    ensures var after := Apply(s, event);
            && after.writer == s.writer && after.shared == s.shared
            && after.audits == s.audits && after.startedAt == s.startedAt
  {
  }

  lemma WriterEventDown(s: State, event: Event)
    requires Inv(s) && Enabled(s, event)
    ensures 0 <= WriterMeasure(s.writer, s.count) && 0 <= WriterMeasure(Apply(s, event).writer, s.count)
    ensures WriterMeasure(Apply(s, event).writer, s.count) + (if event.Write? then 1 else 0)
            <= WriterMeasure(s.writer, s.count)
  {
    assert InRange(s.writer, s.count);
    if event.Write? {
      WriterStepsDown(s, event.choice);
    } else {
      OnlyWritesMoveTheWriter(s, event);
    }
  }

  lemma {:induction false} WriterBudget(run: Run, i: nat)
    requires IsRun(run) && i < |run.states|
    ensures 0 <= WriterMeasure(run.states[i].writer, run.states[0].count)
    ensures Writes(run.events[..i]) + WriterMeasure(run.states[i].writer, run.states[0].count)
            <= 3 * run.states[0].count + 12
  {
    if i > 0 {
      WriterBudget(run, i - 1);
      InvHolds(run, i - 1);
      assert StepAt(run, i - 1);
      WriterEventDown(run.states[i - 1], run.events[i - 1]);
      assert run.events[..i][..i - 1] == run.events[..i - 1];
    }
  }

  /** The worker always has a step until it has left, and takes a bounded number of them. */
  lemma WorkerTerminates(run: Run, i: nat)
    requires IsRun(run) && i < |run.states|
    ensures Writes(run.events[..i]) <= 3 * run.states[0].count + 12
    ensures run.states[i].writer.Exited? || exists choice :: Enabled(run.states[i], Write(choice))
  {
    WriterBudget(run, i);
    var s := run.states[i];
    if s.writer.Selecting? {
      assert Enabled(s, Write(Timer));
    } else if !s.writer.Exited? {
      assert Enabled(s, Write(Proceed));
    }
  }

  /** The panic that cuts an audit record off. */
  ghost predicate LosesAudit(run: Run, k: nat)
    requires IsPath(run)
  {
    && k < |run.events|
    && run.states[k].writer.Auditing?
    && run.events[k].Write? && run.events[k].choice.Panic? && !run.events[k].choice.recorded
  }

  /** The transition is recorded once: never twice, never as another status, and only a panic
      inside the audit call itself loses it. */
  lemma {:induction false} AuditedOnce(run: Run, i: nat)
    requires IsRun(run) && i < |run.states|
    ensures var s := run.states[i];
            && (s.audits == [] || s.audits == [s.shared.status])
            && (s.shared.status == Running ==> s.audits == [])
            && (s.shared.status != Running && s.audits == [] ==>
                  s.writer.Auditing? || exists k: nat :: k < i && LosesAudit(run, k))
  {
    InvHolds(run, i);
    if i > 0 {
      AuditedOnce(run, i - 1);
      InvHolds(run, i - 1);
      var s, e := run.states[i - 1], run.events[i - 1];
      assert StepAt(run, i - 1);
      if s.writer.Auditing? && e.Write? && e.choice.Panic? && !e.choice.recorded {
        assert LosesAudit(run, i - 1);
      }
    }
  }

  /** A finished job that is not about to be recorded. */
  predicate IsUnrecorded(s: State) {
    s.audits == [] && s.shared.status != Running && !s.writer.Auditing?
  }

  lemma WriterStaysUnrecorded(s: State, choice: WriterChoice)
    requires WriterEnabled(s, choice) && IsUnrecorded(s)
    ensures IsUnrecorded(WriterStep(s, choice))
  {
  }

  lemma StaysUnrecorded(s: State, event: Event)
    requires Enabled(s, event) && IsUnrecorded(s)
    ensures IsUnrecorded(Apply(s, event))
  {
    if event.Write? {
      WriterStaysUnrecorded(s, event.choice);
    } else {
      OnlyWritesMoveTheWriter(s, event);
    }
  }

  /** What the panic cuts off stays lost, whatever happens next. */
  lemma {:induction false} LostStaysLost(run: Run, k: nat, i: nat)
    requires IsRun(run) && k < i < |run.states| && LosesAudit(run, k)
    ensures IsUnrecorded(run.states[i])
    decreases i - k
  {
    assert StepAt(run, i - 1);
    if k == i - 1 {
      InvHolds(run, k);
    } else {
      LostStaysLost(run, k, i - 1);
      StaysUnrecorded(run.states[i - 1], run.events[i - 1]);
    }
  }

  /** A worker that has left has recorded its job's end exactly if no panic cut the record off. */
  lemma AuditedIff(run: Run, i: nat)
    requires IsRun(run) && i < |run.states| && run.states[i].writer.Exited?
    ensures run.states[i].audits == [run.states[i].shared.status] <==> !exists k: nat :: k < i && LosesAudit(run, k)
    ensures run.states[i].audits == [] <==> exists k: nat :: k < i && LosesAudit(run, k)
  {
    AuditedOnce(run, i);
    InvHolds(run, i);
    if k: nat :| k < i && LosesAudit(run, k) {
      LostStaysLost(run, k, i);
    }
  }

  ghost predicate EndsAt(run: Run, s: State) {
    IsRun(run) && run.states[|run.events|] == s
  }

  lemma GoOn(run: Run, event: Event) returns (longer: Run, s: State)
    requires IsRun(run) && Enabled(run.states[|run.events|], event)
    ensures EndsAt(longer, s) && s == Apply(run.states[|run.events|], event)
  {
    RunGrows(run, event);
    longer := Longer(run, event);
    s := longer.states[|longer.events|];
  }

  lemma LastTurn() returns (run: Run)
    ensures IsRun(run) && run.states[|run.events|].writer == Selecting(0)
    ensures run.states[|run.events|].shared.status == Running && run.states[|run.events|].audits == []
  {
    var s := Initial("", 1, 0);
    run := Run([s], []);
    run, s := GoOn(run, Write(Proceed));
    run, s := GoOn(run, Write(Proceed));
    run, s := GoOn(run, Write(Proceed));
  }

  /** A job that counts down from one, left to itself, comes to its audit call. */
  lemma CompletedAtAudit() returns (run: Run)
    ensures IsRun(run) && run.states[|run.events|].writer == Auditing(Completed, false)
    ensures run.states[|run.events|].shared.status == Completed && run.states[|run.events|].audits == []
  {
    run := LastTurn();
    var s: State;
    run, s := GoOn(run, Write(Timer));
    run, s := GoOn(run, Write(Proceed));
    run, s := GoOn(run, Write(Proceed));
  }

  /** A job can complete and never be recorded: the audit call panics before it writes, and the
      recovery's attempt to fail the job loses the transition. */
  lemma RecordCanBeLost()
    ensures exists run :: IsRun(run) && var s := run.states[|run.events|];
                                        s.writer.Exited? && s.shared.status == Completed && s.audits == []
  {
    var run := CompletedAtAudit();
    var s := run.states[|run.events|];
    run, s := GoOn(run, Write(Panic("", false)));
    run, s := GoOn(run, Write(Proceed));
    run, s := GoOn(run, Write(Proceed));
    run, s := GoOn(run, Write(Proceed));
    run, s := GoOn(run, Write(Proceed));
  }

  // Stop.

  /** The event that asks a job to end: its parent context does, or a Stop call cancels. */
  ghost predicate IsCancellation(run: Run, k: nat)
    requires IsPath(run)
  {
    && k < |run.events|
    && (|| run.events[k].ParentDone?
        || (run.events[k].StopStep? && run.events[k].caller in run.states[k].stops
            && run.states[k].stops[run.events[k].caller].BeforeCancel?))
  }

  lemma {:induction false} RequestedMeansCancelled(run: Run, i: nat)
    requires IsRun(run) && i < |run.states|
    requires run.states[i].requested
    ensures exists k: nat :: k < i && IsCancellation(run, k)
  {
    if i > 0 {
      var s, e := run.states[i - 1], run.events[i - 1];
      assert StepAt(run, i - 1);
      if s.requested {
        RequestedMeansCancelled(run, i - 1);
      } else {
        assert IsCancellation(run, i - 1);
      }
    }
  }

  /** A job is STOPPED only after somebody cancelled it: the cancellation precedes the transition. */
  lemma StoppedNeedsCancellation(run: Run, i: nat)
    requires IsRun(run) && i < |run.events|
    requires run.states[i].shared.status == Running && run.states[i + 1].shared.status == Stopped
    ensures exists k: nat :: k < i && IsCancellation(run, k)
  {
    InvHolds(run, i);
    InvHolds(run, i + 1);
    assert StepAt(run, i);
    assert run.states[i].requested;
    RequestedMeansCancelled(run, i);
  }

  /** Every Stop call of a run answers the one terminal status. */
  lemma StopAgreement(run: Run, i: nat, c: Caller, j: nat, d: Caller)
    requires IsRun(run) && i <= j < |run.states|
    requires c in run.states[i].stops && run.states[i].stops[c].Answered?
    requires d in run.states[j].stops && run.states[j].stops[d].Answered?
    ensures run.states[i].stops[c].status == run.states[j].stops[d].status != Running
    ensures run.states[j].stops[d].status == run.states[j].shared.status
  {
    InvHolds(run, i);
    InvHolds(run, j);
    ExtendsAlong(run, i, j);
    assert StopInv(run.states[i], run.states[i].stops[c]);
    assert StopInv(run.states[j], run.states[j].stops[d]);
  }

  // Readers.

  /** A reader that has taken no sentinel is never forgotten, blocked or about to block: either the
      channel it holds is the current one, it has taken the whole buffer and the job still runs, or
      that channel is closed and there is a tick to take. */
  lemma NoLostWakeup(run: Run, i: nat, r: nat)
    requires IsRun(run) && i < |run.states|
    requires r in run.states[i].readers && Holding(run.states[i].readers[r])
    ensures var sh, reader := run.states[i].shared, run.states[i].readers[r];
            && (reader.wait !in sh.closed ==>
                  reader.wait == sh.changed && reader.cursor == |sh.ticks| && sh.status == Running)
            && (reader.wait in sh.closed <==> reader.cursor < |sh.ticks|)
  {
    InvHolds(run, i);
    WaitingMeans(run.states[i].count, run.states[i].shared, run.states[i].readers[r]);
  }

  /** A live reader cannot move exactly while it waits, with a live context, on a running job whose
      ticks it has yielded to the last. */
  lemma BlockedIff(run: Run, i: nat, r: nat)
    requires IsRun(run) && i < |run.states|
    requires r in run.states[i].readers && !run.states[i].readers[r].point.Returned?
    ensures (forall act :: !Enabled(run.states[i], Read(r, act))) <==>
            var sh, reader := run.states[i].shared, run.states[i].readers[r];
            reader.point.Waiting? && !reader.contextDone && sh.status == Running && reader.yielded == sh.ticks
  {
    InvHolds(run, i);
    var s := run.states[i];
    var reader := s.readers[r];
    assert PositionInv(s.shared, reader);
    match reader.point
    case AtLock => assert Enabled(s, Read(r, Take));
    case Yielding =>
      assert Enabled(s, Read(r, Drained)) || Enabled(s, Read(r, Deliver(true)));
    case Waiting =>
      WaitingMeans(s.count, s.shared, reader);
      assert Enabled(s, Read(r, Wake)) <==> reader.cursor < |s.shared.ticks|;
      assert Enabled(s, Read(r, Leave)) <==> reader.contextDone;
  }

  /** A reader moves by its own events only. */
  lemma {:induction false} ReaderRests(run: Run, i: nat, j: nat, r: nat)
    requires IsRun(run) && i <= j < |run.states|
    requires r in run.states[i].readers
    requires forall k :: i <= k < j && run.events[k].Read? ==> run.events[k].reader != r
    ensures r in run.states[j].readers
    ensures run.states[j].readers[r].(contextDone := false) == run.states[i].readers[r].(contextDone := false)
    decreases j - i
  {
    if i < j {
      ReaderRests(run, i, j - 1, r);
      var s, e := run.states[j - 1], run.events[j - 1];
      assert StepAt(run, j - 1);
    }
  }

  /** No spin: the snapshot that follows a wake is never empty. */
  lemma WakeIsNeverSpurious(run: Run, i: nat, j: nat, r: nat)
    requires IsRun(run) && i < j < |run.events|
    requires run.events[i] == Read(r, Wake) && run.events[j] == Read(r, Take)
    requires forall k :: i < k < j && run.events[k].Read? ==> run.events[k].reader != r
    ensures r in run.states[j + 1].readers && run.states[j + 1].readers[r].batch != []
  {
    var s := run.states[i];
    InvHolds(run, i);
    assert StepAt(run, i);
    WaitingMeans(s.count, s.shared, s.readers[r]);
    ReaderRests(run, i + 1, j, r);
    ExtendsAlong(run, i, j);
    assert StepAt(run, j);
  }

  /** The snapshots a reader takes, counted off the events. */
  function Takes(events: seq<Event>, r: nat): nat {
    if events == [] then 0
    else Takes(events[..|events| - 1], r) + (if events[|events| - 1] == Read(r, Take) then 1 else 0)
  }

  lemma {:induction false} SnapshotsAreTakes(run: Run, i: nat, r: nat)
    requires IsRun(run) && i < |run.states|
    ensures Takes(run.events[..i], r) == if r in run.states[i].readers then run.states[i].readers[r].snapshots else 0
  {
    if i > 0 {
      SnapshotsAreTakes(run, i - 1, r);
      var s, e := run.states[i - 1], run.events[i - 1];
      assert StepAt(run, i - 1);
      assert run.events[..i][..i - 1] == run.events[..i - 1];
    }
  }

  /** No polling: over any interleaving a reader takes at most two snapshots for each tick. */
  lemma PollingBound(run: Run, i: nat, r: nat)
    requires IsRun(run) && i < |run.states|
    ensures Takes(run.events[..i], r) <= 2 * (run.states[0].count + 1)
  {
    InvHolds(run, i);
    SnapshotsAreTakes(run, i, r);
    var s := run.states[i];
    if r in s.readers {
      SnapshotBound(s.count, s.shared, s.readers[r]);
    }
  }

  lemma SnapshotBound(count: int, sh: Shared, r: Reader)
    requires 1 <= count && SharedInv(count, sh) && ReaderInv(sh, r)
    ensures r.snapshots <= 2 * (count + 1)
  {
    if |sh.ticks| == count + 1 {
      SentinelIsLast(count, sh, count);
    }
  }

  lemma {:induction false} YieldedGrows(run: Run, i: nat, j: nat, r: nat)
    requires IsRun(run) && i <= j < |run.states|
    requires r in run.states[i].readers
    ensures r in run.states[j].readers
    ensures run.states[i].readers[r].yielded <= run.states[j].readers[r].yielded
    ensures run.states[i].readers[r].point.Returned? ==>
              && run.states[j].readers[r].point == run.states[i].readers[r].point
              && run.states[j].readers[r].yielded == run.states[i].readers[r].yielded
    decreases j - i
  {
    if i < j {
      YieldedGrows(run, i, j - 1, r);
      var s, e := run.states[j - 1], run.events[j - 1];
      assert StepAt(run, j - 1);
    }
  }

  /** Delivery: what a reader has yielded is a prefix of the buffer and only ever grows; a reader
      that saw the sentinel has yielded the final buffer, and one whose context ended has yielded
      all of its last snapshot. */
  lemma Delivery(run: Run, i: nat, j: nat, r: nat)
    requires IsRun(run) && i <= j < |run.states|
    requires r in run.states[i].readers
    ensures r in run.states[j].readers
    ensures var reader, sh := run.states[j].readers[r], run.states[j].shared;
            && run.states[i].readers[r].yielded <= reader.yielded <= sh.ticks
            && (reader.point == Returned(SentinelSeen) ==> sh.status != Running && reader.yielded == sh.ticks)
            && (reader.point == Returned(ContextEnded) ==>
                  reader.contextDone && reader.cursor <= |sh.ticks| && reader.yielded == sh.ticks[..reader.cursor])
            && (!reader.point.Returned? ==> NoSentinel(reader.yielded))
  {
    YieldedGrows(run, i, j, r);
    InvHolds(run, j);
    var reader, sh := run.states[j].readers[r], run.states[j].shared;
    assert ReaderInv(sh, reader);
    if reader.point == Returned(SentinelSeen) {
      SentinelIsLast(run.states[j].count, sh, |reader.yielded| - 1);
    }
  }

  /** Any two readers that saw the sentinel, whenever they did, yielded the same ticks. */
  lemma ReadersAgree(run: Run, i: nat, r: nat, j: nat, q: nat)
    requires IsRun(run) && i <= j < |run.states|
    requires r in run.states[i].readers && run.states[i].readers[r].point == Returned(SentinelSeen)
    requires q in run.states[j].readers && run.states[j].readers[q].point == Returned(SentinelSeen)
    ensures run.states[i].readers[r].yielded == run.states[j].readers[q].yielded
  {
    Delivery(run, i, i, r);
    Delivery(run, j, j, q);
    ExtendsAlong(run, i, j);
  }

  /** A tick read without the lock is the tick the slice held when it was taken under it. */
  lemma UnlockedRead(run: Run, i: nat, r: nat, accepted: bool)
    requires IsRun(run) && i < |run.events|
    requires run.events[i] == Read(r, Deliver(accepted))
    ensures r in run.states[i].readers && r in run.states[i + 1].readers
    ensures var before := run.states[i].readers[r];
            && before.next < |before.batch|
            && run.states[i + 1].readers[r].yielded == before.yielded + [before.batch[before.next]]
  {
    InvHolds(run, i);
    var s := run.states[i];
    assert StepAt(run, i);
    assert ReaderInv(s.shared, s.readers[r]);
  }

  // Progress.

  /** How many steps a reader of a finished job has left at most. */
  function ReaderMeasure(sh: Shared, r: Reader): int {
    4 * (|sh.ticks| - |r.yielded|) +
    match r.point
    case AtLock => 1
    case Yielding => if r.lo + r.next == r.cursor then 3 else 0
    case Waiting => 2
    case Returned(_) => 0
  }

  function Reads(events: seq<Event>, r: nat): nat {
    if events == [] then 0
    else Reads(events[..|events| - 1], r) +
         (if events[|events| - 1].Read? && events[|events| - 1].reader == r then 1 else 0)
  }

  /** A live reader of a finished job always has a step. */
  lemma DrainEnabled(count: int, sh: Shared, r: Reader)
    requires SharedInv(count, sh) && ReaderInv(sh, r)
    requires sh.status != Running && !r.point.Returned?
    ensures exists act :: ReaderEnabled(sh, r, act)
  {
    match r.point
    case AtLock => assert ReaderEnabled(sh, r, Take);
    case Yielding =>
      if r.lo + r.next == r.cursor {
        assert ReaderEnabled(sh, r, Drained);
      } else {
        assert ReaderEnabled(sh, r, Deliver(true));
      }
    case Waiting =>
      WaitingMeans(count, sh, r);
      assert ReaderEnabled(sh, r, Wake);
  }

  lemma DrainStepsDown(count: int, sh: Shared, r: Reader, act: ReaderChoice)
    requires SharedInv(count, sh) && ReaderInv(sh, r) && sh.status != Running
    requires ReaderEnabled(sh, r, act)
    ensures 0 <= ReaderMeasure(sh, ReaderStep(sh, r, act)) < ReaderMeasure(sh, r)
  {
    SentinelIsLast(count, sh, |sh.ticks| - 1);
  }

  lemma ReaderMeasureBounds(count: int, sh: Shared, r: Reader)
    requires SharedInv(count, sh) && ReaderInv(sh, r)
    ensures 0 <= ReaderMeasure(sh, r) <= 4 * (count + 1) + 3
  {
  }

  lemma OthersLeaveReader(s: State, event: Event, r: nat)
    requires Enabled(s, event) && r in s.readers && !(event.Read? && event.reader == r)
    ensures r in Apply(s, event).readers
    ensures Apply(s, event).readers[r].(contextDone := false) == s.readers[r].(contextDone := false)
  {
  }

  lemma DrainEventDown(s: State, event: Event, r: nat)
    requires Inv(s) && Enabled(s, event)
    requires s.shared.status != Running && r in s.readers
    ensures r in Apply(s, event).readers
    ensures ReaderMeasure(s.shared, Apply(s, event).readers[r])
            + (if event.Read? && event.reader == r then 1 else 0)
            <= ReaderMeasure(s.shared, s.readers[r])
  {
    if event.Read? && event.reader == r {
      DrainStepsDown(s.count, s.shared, s.readers[r], event.act);
    } else {
      OthersLeaveReader(s, event, r);
    }
  }

  lemma DrainEventAt(run: Run, k: nat, r: nat)
    requires IsRun(run) && k < |run.events|
    requires run.states[k].shared.status != Running && r in run.states[k].readers
    ensures r in run.states[k + 1].readers
    ensures ReaderMeasure(run.states[k + 1].shared, run.states[k + 1].readers[r])
            + (if run.events[k].Read? && run.events[k].reader == r then 1 else 0)
            <= ReaderMeasure(run.states[k].shared, run.states[k].readers[r])
  {
    InvHolds(run, k);
    AppendOnly(run, k, k + 1);
    assert StepAt(run, k);
    DrainEventDown(run.states[k], run.events[k], r);
  }

  lemma SliceFront<T>(s: seq<T>, i: nat, j: nat)
    requires i < j <= |s|
    ensures |s[i..j]| == j - i && s[i..j][..j - i - 1] == s[i..j - 1] && s[i..j][j - i - 1] == s[j - 1]
  {
  }

  lemma {:induction false} DrainBudget(run: Run, i: nat, j: nat, r: nat)
    requires IsRun(run) && i <= j < |run.states|
    requires run.states[i].shared.status != Running && r in run.states[i].readers
    ensures r in run.states[j].readers
    ensures Reads(run.events[i..j], r) + ReaderMeasure(run.states[j].shared, run.states[j].readers[r])
            <= ReaderMeasure(run.states[i].shared, run.states[i].readers[r])
    decreases j - i
  {
    if i < j {
      DrainBudget(run, i, j - 1, r);
      AppendOnly(run, i, j - 1);
      DrainEventAt(run, j - 1, r);
      SliceFront(run.events, i, j);
    }
  }

  lemma LiveReaderMoves(s: State, r: nat)
    requires Inv(s) && s.shared.status != Running
    requires r in s.readers && !s.readers[r].point.Returned?
    ensures exists e :: Enabled(s, e) && e.Read? && e.reader == r
  {
    DrainEnabled(s.count, s.shared, s.readers[r]);
    var act :| ReaderEnabled(s.shared, s.readers[r], act);
    assert Enabled(s, Read(r, act));
  }

  /** Once the job has finished every reader always has a step until it returns, and takes a bounded
      number of them. */
  lemma DrainTerminates(run: Run, i: nat, j: nat, r: nat)
    requires IsRun(run) && i <= j < |run.states|
    requires run.states[i].shared.status != Running && r in run.states[i].readers
    ensures r in run.states[j].readers
    ensures Reads(run.events[i..j], r) <= 4 * (run.states[0].count + 1) + 3
    ensures run.states[j].readers[r].point.Returned?
            || exists e :: Enabled(run.states[j], e) && e.Read? && e.reader == r
  {
    DrainBudget(run, i, j, r);
    ExtendsAlong(run, i, j);
    InvHolds(run, i);
    InvHolds(run, j);
    var s := run.states[j];
    ReaderMeasureBounds(run.states[i].count, run.states[i].shared, run.states[i].readers[r]);
    ReaderMeasureBounds(s.count, s.shared, s.readers[r]);
    if !s.readers[r].point.Returned? {
      LiveReaderMoves(s, r);
    }
  }

  /** How many steps a reader has left at most, whether or not its job has finished. */
  function ReaderLeft(count: int, sh: Shared, r: Reader): int {
    6 * (count + 1 - |r.yielded|) +
    match r.point
    case AtLock => if r.cursor < |sh.ticks| then 1 else 4
    case Yielding => if r.lo + r.next < r.cursor then 0 else if r.lo == r.cursor then 3 else 5
    case Waiting => 2
    case Returned(_) => 0
  }

  /** The most steps a reader can take. */
  function ReaderSteps(count: int): int {
    6 * (count + 1) + 4
  }

  lemma ReaderLeftBounds(count: int, sh: Shared, r: Reader)
    requires 1 <= count && SharedInv(count, sh) && ReaderInv(sh, r)
    ensures 0 <= ReaderLeft(count, sh, r)
  {
  }

  lemma ReaderStepsDown(count: int, sh: Shared, r: Reader, act: ReaderChoice)
    requires SharedInv(count, sh) && ReaderInv(sh, r) && ReaderEnabled(sh, r, act)
    ensures ReaderLeft(count, sh, ReaderStep(sh, r, act)) < ReaderLeft(count, sh, r)
  {
    if act.Wake? {
      WaitingMeans(count, sh, r);
    }
  }

  /** An append brings no reader back. */
  lemma ReaderLeftFalls(count: int, sh: Shared, after: Shared, r: Reader)
    requires Extends(sh, after)
    ensures ReaderLeft(count, after, r) <= ReaderLeft(count, sh, r)
  {
  }

  lemma ReaderEventDown(s: State, event: Event, r: nat)
    requires Inv(s) && Enabled(s, event) && r in s.readers
    ensures r in Apply(s, event).readers
    ensures ReaderLeft(s.count, Apply(s, event).shared, Apply(s, event).readers[r])
            + (if event.Read? && event.reader == r then 1 else 0)
            <= ReaderLeft(s.count, s.shared, s.readers[r])
  {
    if event.Read? && event.reader == r {
      ReaderStepsDown(s.count, s.shared, s.readers[r], event.act);
    } else {
      ApplyExtends(s, event);
      OthersLeaveReader(s, event, r);
      ReaderLeftFalls(s.count, s.shared, Apply(s, event).shared, s.readers[r]);
    }
  }

  lemma {:induction false} ReaderBudget(run: Run, i: nat, r: nat)
    requires IsRun(run) && i < |run.states|
    ensures Reads(run.events[..i], r) + (if r in run.states[i].readers
              then ReaderLeft(run.states[0].count, run.states[i].shared, run.states[i].readers[r])
              else ReaderSteps(run.states[0].count)) <= ReaderSteps(run.states[0].count)
  {
    if i > 0 {
      ReaderBudget(run, i - 1, r);
      InvHolds(run, i - 1);
      var s, e := run.states[i - 1], run.events[i - 1];
      assert StepAt(run, i - 1);
      assert run.events[..i][..i - 1] == run.events[..i - 1];
      if r in s.readers {
        ReaderEventDown(s, e, r);
      }
    }
  }

  /** Over any interleaving, of a job running or finished, a reader takes a bounded number of steps. */
  lemma ReadsBound(run: Run, i: nat, r: nat)
    requires IsRun(run) && i < |run.states|
    ensures Reads(run.events[..i], r) <= ReaderSteps(run.states[0].count)
  {
    ReaderBudget(run, i, r);
    InvHolds(run, i);
    var s := run.states[i];
    if r in s.readers {
      ReaderLeftBounds(s.count, s.shared, s.readers[r]);
    }
  }

  /** Nothing wedges: where neither the worker, nor a Stop call, nor a reader can move, the worker
      has left, every Stop call has answered and every reader has returned. */
  lemma NoWedge(run: Run, i: nat)
    requires IsRun(run) && i < |run.states|
    requires forall e :: Enabled(run.states[i], e) ==> !e.Write? && !e.StopStep? && !e.Read?
    ensures var s := run.states[i];
            && s.writer.Exited?
            && (forall c :: c in s.stops ==> s.stops[c] == Answered(s.shared.status))
            && (forall r :: r in s.readers ==> s.readers[r].point.Returned?)
  {
    var s := run.states[i];
    InvHolds(run, i);
    assert !Enabled(s, Write(Proceed)) && !Enabled(s, Write(Timer));
    forall c | c in s.stops ensures s.stops[c] == Answered(s.shared.status) {
      assert !Enabled(s, StopStep(c));
      assert StopInv(s, s.stops[c]);
    }
    forall r | r in s.readers ensures s.readers[r].point.Returned? {
      if !s.readers[r].point.Returned? {
        LiveReaderMoves(s, r);
        assert false;
      }
    }
  }
}
