/** What the ticks and the exits of a run say of what happened in it, and which outcomes there are
    (internal/worker/job.go). */
module JobOutcomes {
  import opened Wrappers
  import opened Ticks
  import opened JobState
  import opened JobProtocol
  import opened JobInvariant
  import opened JobTheorems

  // Cancellation.

  /** The error a job's context ends with when this event ends it. */
  function CauseOf(event: Event): Cause {
    if event.ParentDone? then event.cause else Canceled
  }

  lemma CauseKept(s: State, event: Event)
    requires Enabled(s, event) && s.cause.Some?
    ensures Apply(s, event).cause == s.cause
  {
  }

  lemma CancellationSets(run: Run, k: nat)
    requires IsRun(run) && k < |run.events| && IsCancellation(run, k)
    ensures run.states[k + 1].cause.Some? && run.states[k + 1].requested
    ensures run.states[k].cause.None? ==> run.states[k + 1].cause == Some(CauseOf(run.events[k]))
  {
    assert StepAt(run, k);
  }

  lemma {:induction false} CancelledStays(run: Run, k: nat, i: nat)
    requires IsRun(run) && k < i < |run.states| && IsCancellation(run, k)
    ensures run.states[i].cause.Some? && run.states[i].requested
    decreases i - k
  {
    if k == i - 1 {
      CancellationSets(run, k);
    } else {
      CancelledStays(run, k, i - 1);
      assert StepAt(run, i - 1);
      CauseKept(run.states[i - 1], run.events[i - 1]);
    }
  }

  /** A cancellation reaches the worker: from then on its select can always take the end of the context. */
  lemma CancellationIsSeen(run: Run, k: nat, i: nat)
    requires IsRun(run) && k < i < |run.states| && IsCancellation(run, k)
    requires run.states[i].writer.Selecting?
    ensures Enabled(run.states[i], Write(CancelSeen))
    ensures var after := Apply(run.states[i], Write(CancelSeen));
            after.writer.Finishing? && after.writer.terminal == Stopped && after.writer.last.StoppedTick?
  {
    CancelledStays(run, k, i);
  }

  /** A Stop call cancels before it waits, so a Stop that waits for the worker has reached it. */
  lemma StopReachesWorker(run: Run, i: nat, c: Caller)
    requires IsRun(run) && i < |run.states|
    requires c in run.states[i].stops && run.states[i].stops[c].AwaitingFinish?
    requires run.states[i].writer.Selecting?
    ensures Enabled(run.states[i], Write(CancelSeen))
  {
    InvHolds(run, i);
    assert StopInv(run.states[i], run.states[i].stops[c]);
  }

  /** A worker that has left has released its context. */
  lemma {:induction false} ExitReleases(run: Run, i: nat)
    requires IsRun(run) && i < |run.states| && run.states[i].writer.Exited?
    ensures run.states[i].cause.Some?
  {
    if i > 0 {
      assert StepAt(run, i - 1);
      if run.states[i - 1].writer.Exited? {
        ExitReleases(run, i - 1);
        CauseKept(run.states[i - 1], run.events[i - 1]);
      }
    }
  }

  // What a tick says.

  ghost predicate IsFirstCancellation(run: Run, k: nat)
    requires IsPath(run)
  {
    IsCancellation(run, k) && forall j: nat :: j < k ==> !IsCancellation(run, j)
  }

  /** The context ended with this cause: that of the first cancellation among the first i events. */
  ghost predicate EndedWith(run: Run, i: nat, cause: Cause)
    requires IsPath(run)
  {
    exists k: nat :: k < i && IsFirstCancellation(run, k) && CauseOf(run.events[k]) == cause
  }

  lemma {:induction false} CauseIsFirst(run: Run, i: nat)
    requires IsRun(run) && i < |run.states|
    requires run.states[i].cause.Some? && !run.states[i].writer.Exited?
    ensures EndedWith(run, i, run.states[i].cause.value)
  {
    if i > 0 {
      var s, e := run.states[i - 1], run.events[i - 1];
      assert StepAt(run, i - 1);
      if s.writer.Exited? {
        OnlyExitedStays(s, e);
      }
      if s.cause.Some? {
        CauseKept(s, e);
        CauseIsFirst(run, i - 1);
      } else {
        FirstCancellationHere(run, i - 1);
      }
    }
  }

  lemma OnlyExitedStays(s: State, event: Event)
    requires Enabled(s, event) && s.writer.Exited?
    ensures Apply(s, event).writer.Exited?
  {
  }

  lemma FirstCancellationHere(run: Run, k: nat)
    requires IsRun(run) && k < |run.events|
    requires run.states[k].cause.None? && run.states[k + 1].cause.Some? && !run.states[k + 1].writer.Exited?
    ensures IsFirstCancellation(run, k) && run.states[k + 1].cause == Some(CauseOf(run.events[k]))
  {
    assert StepAt(run, k);
    forall j: nat | j < k ensures !IsCancellation(run, j) {
      if IsCancellation(run, j) {
        CancelledStays(run, j, k);
      }
    }
  }

  /** The worker panicked with this message. */
  ghost predicate Panicked(run: Run, i: nat, message: string)
    requires IsPath(run)
  {
    exists k: nat :: k < i && PanicsAt(run, k, message)
  }

  ghost predicate PanicsAt(run: Run, k: nat, message: string)
    requires IsPath(run)
  {
    k < |run.events| && run.events[k].Write? && run.events[k].choice.Panic? && run.events[k].choice.message == message
  }

  /** The step that takes the time the job started at. */
  ghost predicate StartsClock(run: Run, a: nat)
    requires IsPath(run)
  {
    a < |run.events| && run.states[a].writer.Announced? && run.events[a] == Write(Proceed)
  }

  /** The timer fired with so much to go, so long after the job started. */
  ghost predicate FiredAt(run: Run, a: nat, b: nat, elapsed: int, remaining: int)
    requires IsPath(run)
  {
    && StartsClock(run, a) && a < b < |run.events|
    && run.events[b] == Write(Timer) && run.states[b].writer == Selecting(remaining)
    && elapsed == run.states[b].now - run.states[a].now
  }

  ghost predicate Fired(run: Run, i: nat, elapsed: int, remaining: int)
    requires IsPath(run)
  {
    exists a: nat, b: nat :: b < i && FiredAt(run, a, b, elapsed, remaining)
  }

  /** A tick says what happened: the start, a timer with the time it fired at, the first cancellation
      with its cause, or a panic with its message. */
  ghost predicate SaysWhatHappened(run: Run, i: nat, tick: Tick)
    requires IsPath(run)
  {
    match tick
    case Progress(elapsed, remaining) => tick == Progress(0, run.states[0].count) || Fired(run, i, elapsed, remaining)
    case StoppedTick(cause) => EndedWith(run, i, cause)
    case PanicError(message) => Panicked(run, i, message)
  }

  lemma SaidStays(run: Run, i: nat, j: nat, tick: Tick)
    requires IsPath(run) && i <= j && SaysWhatHappened(run, i, tick)
    ensures SaysWhatHappened(run, j, tick)
  {
    match tick
    case Progress(elapsed, remaining) =>
      if tick != Progress(0, run.states[0].count) {
        var a: nat, b: nat :| b < i && FiredAt(run, a, b, elapsed, remaining);
      }
    case StoppedTick(cause) =>
      var k: nat :| k < i && IsFirstCancellation(run, k) && CauseOf(run.events[k]) == cause;
    case PanicError(message) =>
      var k: nat :| k < i && PanicsAt(run, k, message);
  }

  predicate IsCounting(w: Writer) {
    w.LoopHead? || w.Selecting? || w.Fired?
  }

  /** The clock of a job that counts down was started once the first tick was out. */
  ghost predicate ClockStarted(run: Run, i: nat)
    requires IsPath(run) && i < |run.states|
  {
    exists a: nat :: a < i && StartsClock(run, a) && run.states[i].startedAt == run.states[a].now
  }

  lemma CountingStep(s: State, choice: WriterChoice)
    requires WriterEnabled(s, choice) && IsCounting(WriterStep(s, choice).writer)
    ensures (s.writer.Announced? && choice == Proceed && WriterStep(s, choice).startedAt == s.now) ||
            (IsCounting(s.writer) && WriterStep(s, choice).startedAt == s.startedAt)
  {
  }

  lemma CountingGoesOn(s: State, event: Event)
    requires Enabled(s, event) && IsCounting(Apply(s, event).writer)
    ensures (s.writer.Announced? && event == Write(Proceed) && Apply(s, event).startedAt == s.now) ||
            (IsCounting(s.writer) && Apply(s, event).startedAt == s.startedAt)
  {
    if event.Write? {
      CountingStep(s, event.choice);
    } else {
      OnlyWritesMoveTheWriter(s, event);
    }
  }

  lemma {:induction false} CountingHasClock(run: Run, i: nat)
    requires IsRun(run) && i < |run.states| && IsCounting(run.states[i].writer)
    ensures ClockStarted(run, i)
  {
    if i > 0 {
      assert StepAt(run, i - 1);
      CountingGoesOn(run.states[i - 1], run.events[i - 1]);
      if IsCounting(run.states[i - 1].writer) {
        CountingHasClock(run, i - 1);
        var a: nat :| a < i - 1 && StartsClock(run, a) && run.states[i - 1].startedAt == run.states[a].now;
      } else {
        assert StartsClock(run, i - 1);
      }
    }
  }

  /** The tick the worker has in hand, if it has one. */
  function InHand(w: Writer): Option<Tick> {
    match w
    case Fired(_, tick) => Some(tick)
    case Finishing(_, last, _) => Some(last)
    case Recovering(message) => Some(PanicError(message))
    case _ => None
  }

  /** A tick comes to hand when the timer fires, the cancellation is seen or a panic surfaces. */
  lemma ComesToHand(run: Run, k: nat)
    requires IsRun(run) && k < |run.events| && InHand(run.states[k + 1].writer).Some?
    requires InHand(run.states[k + 1].writer) != InHand(run.states[k].writer)
    ensures SaysWhatHappened(run, k + 1, InHand(run.states[k + 1].writer).value)
  {
    var s, e := run.states[k], run.events[k];
    assert StepAt(run, k);
    HandFills(s, e);
    match e.choice
    case Timer =>
      CountingHasClock(run, k);
      var a: nat :| a < k && StartsClock(run, a) && s.startedAt == run.states[a].now;
      assert FiredAt(run, a, k, s.now - s.startedAt, s.writer.current);
    case CancelSeen =>
      CauseIsFirst(run, k);
      SaidStays(run, k, k + 1, StoppedTick(s.cause.value));
    case Panic(message, _) =>
      assert PanicsAt(run, k, message);
  }

  lemma HandFills(s: State, event: Event)
    requires Enabled(s, event) && InHand(Apply(s, event).writer).Some?
    requires InHand(Apply(s, event).writer) != InHand(s.writer)
    ensures event.Write? && WriterEnabled(s, event.choice)
    ensures Filled(s, event.choice, InHand(Apply(s, event).writer).value)
  {
    if event.Write? {
      HandFillsByStep(s, event.choice);
    } else {
      OnlyWritesMoveTheWriter(s, event);
    }
  }

  /** What the worker takes in hand. */
  predicate Filled(s: State, choice: WriterChoice, tick: Tick) {
    match choice
    case Timer => s.writer.Selecting? && tick == Progress(s.now - s.startedAt, s.writer.current)
    case CancelSeen => s.cause.Some? && !s.writer.Exited? && tick == StoppedTick(s.cause.value)
    case Panic(message, _) => tick == PanicError(message)
    case Proceed => false
  }

  lemma HandFillsByStep(s: State, choice: WriterChoice)
    requires WriterEnabled(s, choice) && InHand(WriterStep(s, choice).writer).Some?
    requires InHand(WriterStep(s, choice).writer) != InHand(s.writer)
    ensures Filled(s, choice, InHand(WriterStep(s, choice).writer).value)
  {
  }

  /** What a step appends is the first tick or what the worker had in hand. */
  predicate AppendsFromHand(s: State, after: seq<Tick>) {
    || after == s.shared.ticks
    || after == s.shared.ticks + [Progress(0, s.count)]
    || (InHand(s.writer).Some? && after == s.shared.ticks + [InHand(s.writer).value])
  }

  lemma StepAppendsFromHand(s: State, choice: WriterChoice)
    requires WriterEnabled(s, choice)
    ensures AppendsFromHand(s, WriterStep(s, choice).shared.ticks)
  {
  }

  lemma AppendsWhatIsInHand(s: State, event: Event)
    requires Enabled(s, event)
    ensures AppendsFromHand(s, Apply(s, event).shared.ticks)
  {
    if event.Write? {
      StepAppendsFromHand(s, event.choice);
    } else {
      OnlyWritesMoveTheWriter(s, event);
    }
  }

  /** Every tick of a run says what happened in it. */
  lemma {:induction false} TicksSayWhatHappened(run: Run, i: nat, t: nat)
    requires IsRun(run) && i < |run.states| && t < |run.states[i].shared.ticks|
    ensures SaysWhatHappened(run, i, run.states[i].shared.ticks[t])
  {
    if i > 0 {
      var s, e := run.states[i - 1], run.events[i - 1];
      assert StepAt(run, i - 1);
      AppendsWhatIsInHand(s, e);
      InvHolds(run, i - 1);
      if t < |s.shared.ticks| {
        TicksSayWhatHappened(run, i - 1, t);
        SaidStays(run, i - 1, i, s.shared.ticks[t]);
      } else if InHand(s.writer).Some? {
        HandSaysWhatHappened(run, i - 1);
        SaidStays(run, i - 1, i, InHand(s.writer).value);
      }
    }
  }

  lemma {:induction false} HandSaysWhatHappened(run: Run, i: nat)
    requires IsRun(run) && i < |run.states| && InHand(run.states[i].writer).Some?
    ensures SaysWhatHappened(run, i, InHand(run.states[i].writer).value)
  {
    if i > 0 {
      if InHand(run.states[i].writer) == InHand(run.states[i - 1].writer) {
        HandSaysWhatHappened(run, i - 1);
        SaidStays(run, i - 1, i, InHand(run.states[i].writer).value);
      } else {
        ComesToHand(run, i - 1);
      }
    }
  }

  /** The clock of a run: what it was last set to. */
  function LastInstant(events: seq<Event>, start: int): int {
    if events == [] then start
    else if events[|events| - 1].Clock? then events[|events| - 1].instant
    else LastInstant(events[..|events| - 1], start)
  }

  lemma ClockStep(s: State, event: Event)
    requires Enabled(s, event)
    ensures Apply(s, event).now == if event.Clock? then event.instant else s.now
    ensures s.now <= Apply(s, event).now
  {
  }

  lemma {:induction false} NowIsTheClock(run: Run, i: nat)
    requires IsRun(run) && i < |run.states|
    ensures run.states[i].now == LastInstant(run.events[..i], run.states[0].now)
  {
    if i > 0 {
      NowIsTheClock(run, i - 1);
      assert StepAt(run, i - 1);
      ClockStep(run.states[i - 1], run.events[i - 1]);
      assert run.events[..i][..i - 1] == run.events[..i - 1];
    }
  }

  // What can happen next.

  /** The worker is in the recovery that follows a panic. */
  predicate IsRecovering(w: Writer) {
    w.Recovering? || (w.Finishing? && w.recovering) || (w.Auditing? && w.recovering)
  }

  /** The deferred closing of finished and release of the context, and after. */
  predicate HasLeft(w: Writer) {
    w.Closing? || w.Releasing? || w.Exited?
  }

  ghost predicate AnyPanic(run: Run, i: nat)
    requires IsPath(run)
  {
    exists k: nat :: k < i && k < |run.events| && run.events[k].Write? && run.events[k].choice.Panic?
  }

  lemma ProceedingRecovers(s: State)
    requires WriterEnabled(s, Proceed)
    ensures IsRecovering(Proceeding(s).writer) ==> IsRecovering(s.writer)
    ensures IsRecovering(s.writer) || HasLeft(s.writer) ==>
              IsRecovering(Proceeding(s).writer) || HasLeft(Proceeding(s).writer)
  {
  }

  lemma RecoveryStep(s: State, choice: WriterChoice)
    requires WriterEnabled(s, choice)
    ensures IsRecovering(WriterStep(s, choice).writer) ==> choice.Panic? || IsRecovering(s.writer)
    ensures choice.Panic? || IsRecovering(s.writer) || HasLeft(s.writer) ==>
              IsRecovering(WriterStep(s, choice).writer) || HasLeft(WriterStep(s, choice).writer)
  {
    if choice.Proceed? {
      ProceedingRecovers(s);
    }
  }

  lemma {:induction false} RecoveringIff(run: Run, i: nat)
    requires IsRun(run) && i < |run.states|
    ensures IsRecovering(run.states[i].writer) ==> AnyPanic(run, i)
    ensures AnyPanic(run, i) ==> IsRecovering(run.states[i].writer) || HasLeft(run.states[i].writer)
  {
    if i > 0 {
      var s, e := run.states[i - 1], run.events[i - 1];
      assert StepAt(run, i - 1);
      RecoveringIff(run, i - 1);
      if e.Write? {
        RecoveryStep(s, e.choice);
      } else {
        OnlyWritesMoveTheWriter(s, e);
      }
      if AnyPanic(run, i - 1) {
        var k: nat :| k < i - 1 && run.events[k].Write? && run.events[k].choice.Panic?;
      }
    }
  }

  /** The worker can panic, with any message, exactly where it has not panicked before and has not left
      its body; and the panic can come behind the record exactly in the audit call. */
  lemma PanicsAnywhere(run: Run, i: nat, message: string, recorded: bool)
    requires IsRun(run) && i < |run.states|
    ensures Enabled(run.states[i], Write(Panic(message, recorded))) <==>
              !AnyPanic(run, i) && !HasLeft(run.states[i].writer) && (recorded ==> run.states[i].writer.Auditing?)
  {
    RecoveringIff(run, i);
  }

  ghost predicate Cancelled(run: Run, i: nat)
    requires IsPath(run)
  {
    exists k: nat :: k < i && IsCancellation(run, k)
  }

  /** In its select the worker can take the timer at any time, and the end of its context exactly once
      it was cancelled; elsewhere it can go on until it has left. */
  lemma WorkerChoices(run: Run, i: nat)
    requires IsRun(run) && i < |run.states|
    ensures var s := run.states[i];
            && (Enabled(s, Write(Timer)) <==> s.writer.Selecting?)
            && (Enabled(s, Write(CancelSeen)) <==> s.writer.Selecting? && Cancelled(run, i))
            && (Enabled(s, Write(Proceed)) <==> !s.writer.Selecting? && !s.writer.Exited?)
  {
    var s := run.states[i];
    if s.writer.Selecting? {
      InvHolds(run, i);
      if s.cause.Some? {
        RequestedMeansCancelled(run, i);
      }
      if k: nat :| k < i && IsCancellation(run, k) {
        CancelledStays(run, k, i);
      }
    }
  }

  /** A reader hands over what is left of its slice, to a consumer that takes it or stops, and then
      leaves the slice; it wakes exactly if there is a tick it has not taken, and leaves exactly if its
      context was ended. */
  lemma ReaderChoices(run: Run, i: nat, r: nat, accepted: bool)
    requires IsRun(run) && i < |run.states| && r in run.states[i].readers
    ensures var s, reader := run.states[i], run.states[i].readers[r];
            && (Enabled(s, Read(r, Take)) <==> reader.point.AtLock?)
            && (Enabled(s, Read(r, Deliver(accepted))) <==> reader.point.Yielding? && reader.next < |reader.batch|)
            && (Enabled(s, Read(r, Drained)) <==> reader.point.Yielding? && reader.next == |reader.batch|)
            && (Enabled(s, Read(r, Wake)) <==> reader.point.Waiting? && reader.cursor < |s.shared.ticks|)
            && (Enabled(s, Read(r, Leave)) <==> reader.point.Waiting? && ContextEndedBefore(run, i, r))
  {
    InvHolds(run, i);
    var s := run.states[i];
    assert ReaderInv(s.shared, s.readers[r]);
    ContextDoneIff(run, i, r);
    if s.readers[r].point.Waiting? {
      WaitingMeans(s.count, s.shared, s.readers[r]);
    }
  }

  /** What comes from outside can come at any time: the clock goes on, the parent context ends, new
      Stop calls and new readers come, and the context of any reader ends. */
  lemma OutsideIsFree(s: State, instant: int, cause: Cause, caller: Caller, reader: nat)
    ensures Enabled(s, Clock(instant)) <==> s.now <= instant
    ensures Enabled(s, ParentDone(cause))
    ensures Enabled(s, CallStop(caller)) <==> caller !in s.stops
    ensures Enabled(s, Open(reader)) <==> reader !in s.readers
    ensures Enabled(s, EndContext(reader)) <==> reader in s.readers
  {
  }

  // How a reader comes to return.

  ghost predicate ContextEndedBefore(run: Run, i: nat, r: nat)
    requires IsPath(run)
  {
    exists k: nat :: k < i && k < |run.events| && run.events[k] == EndContext(r)
  }

  lemma ContextStep(s: State, event: Event, r: nat)
    requires Enabled(s, event) && r in Apply(s, event).readers
    ensures Apply(s, event).readers[r].contextDone <==>
            event == EndContext(r) || (r in s.readers && s.readers[r].contextDone)
  {
  }

  /** A reader's context is done exactly if it has been ended. */
  lemma {:induction false} ContextDoneIff(run: Run, i: nat, r: nat)
    requires IsRun(run) && i < |run.states|
    ensures ContextEndedBefore(run, i, r) ==> r in run.states[i].readers
    ensures r in run.states[i].readers ==>
              (run.states[i].readers[r].contextDone <==> ContextEndedBefore(run, i, r))
  {
    if i > 0 {
      var s, e := run.states[i - 1], run.events[i - 1];
      assert StepAt(run, i - 1);
      ContextDoneIff(run, i - 1, r);
      ReadersStay(s, e);
      if r in run.states[i].readers {
        ContextStep(s, e, r);
      }
      if ContextEndedBefore(run, i, r) && e != EndContext(r) {
        var k: nat :| k < i && run.events[k] == EndContext(r);
        assert k < i - 1;
      }
    }
  }

  lemma ReadersStay(s: State, event: Event)
    requires Enabled(s, event)
    ensures s.readers.Keys <= Apply(s, event).readers.Keys
  {
  }

  /** The step that returns with this exit. */
  predicate Exits(choice: ReaderChoice, exit: Exit) {
    match exit
    case ConsumerStopped => choice == Deliver(false)
    case SentinelSeen => choice == Deliver(true)
    case ContextEnded => choice == Leave
  }

  ghost predicate ExitedBy(run: Run, i: nat, r: nat, exit: Exit)
    requires IsPath(run)
  {
    exists k: nat :: k < i && k < |run.events| && run.events[k].Read? && run.events[k].reader == r
                     && Exits(run.events[k].act, exit)
  }

  lemma ReturnStep(s: State, event: Event, r: nat)
    requires Enabled(s, event) && r in Apply(s, event).readers && Apply(s, event).readers[r].point.Returned?
    ensures r in s.readers
    ensures s.readers[r].point == Apply(s, event).readers[r].point ||
            (event.Read? && event.reader == r && Exits(event.act, Apply(s, event).readers[r].point.exit))
  {
  }

  lemma ReadStops(s: State, event: Event, r: nat)
    requires Enabled(s, event) && (event == Read(r, Deliver(false)) || event == Read(r, Leave))
    ensures r in s.readers && r in Apply(s, event).readers
    ensures Apply(s, event).readers[r].point ==
            Returned(if event == Read(r, Leave) then ContextEnded else ConsumerStopped)
  {
  }

  /** A reader returns by the step that its exit names. */
  lemma {:induction false} ReturnedBy(run: Run, i: nat, r: nat)
    requires IsRun(run) && i < |run.states|
    requires r in run.states[i].readers && run.states[i].readers[r].point.Returned?
    ensures ExitedBy(run, i, r, run.states[i].readers[r].point.exit)
  {
    if i > 0 {
      assert StepAt(run, i - 1);
      ReturnStep(run.states[i - 1], run.events[i - 1], r);
      if run.states[i - 1].readers[r].point.Returned? {
        ReturnedBy(run, i - 1, r);
        var k: nat :| k < i - 1 && run.events[k].Read? && run.events[k].reader == r
                      && Exits(run.events[k].act, run.states[i].readers[r].point.exit);
      }
    }
  }

  /** A reader has returned to a consumer that stopped exactly if the consumer did stop, and for its
      context exactly if it left its select for it, with the context ended before. */
  lemma ExitsTell(run: Run, i: nat, r: nat)
    requires IsRun(run) && i < |run.states| && r in run.states[i].readers
    ensures run.states[i].readers[r].point == Returned(ConsumerStopped) <==> ExitedBy(run, i, r, ConsumerStopped)
    ensures run.states[i].readers[r].point == Returned(ContextEnded) <==> ExitedBy(run, i, r, ContextEnded)
    ensures run.states[i].readers[r].point == Returned(ContextEnded) ==> ContextEndedBefore(run, i, r)
  {
    var point := run.states[i].readers[r].point;
    if point.Returned? {
      ReturnedBy(run, i, r);
    }
    StoppedForGood(run, i, r, ConsumerStopped);
    StoppedForGood(run, i, r, ContextEnded);
    if point == Returned(ContextEnded) {
      InvHolds(run, i);
      assert ReaderInv(run.states[i].shared, run.states[i].readers[r]);
      ContextDoneIff(run, i, r);
    }
  }

  lemma StoppedForGood(run: Run, i: nat, r: nat, exit: Exit)
    requires IsRun(run) && i < |run.states| && r in run.states[i].readers && !exit.SentinelSeen?
    ensures ExitedBy(run, i, r, exit) ==> run.states[i].readers[r].point == Returned(exit)
  {
    if ExitedBy(run, i, r, exit) {
      var k: nat :| k < i && k < |run.events| && run.events[k].Read? && run.events[k].reader == r
                    && Exits(run.events[k].act, exit);
      assert StepAt(run, k);
      ReadStops(run.states[k], run.events[k], r);
      YieldedGrows(run, k + 1, i, r);
    }
  }

  // Which outcomes there are.

  /** Counting down to any point can be reached. */
  lemma {:induction false} CountsTo(count: int, k: nat) returns (run: Run)
    requires ValidCount(count) && 1 <= k <= count
    ensures IsRun(run)
    ensures var s := run.states[|run.events|];
            && s.count == count && s.writer == Selecting(count - k) && s.stops == map[]
            && s.shared.status == Running && |s.shared.ticks| == k
    decreases k
  {
    var s: State;
    if k == 1 {
      s := Initial("", count, 0);
      run := Run([s], []);
      run, s := GoOn(run, Write(Proceed));
    } else {
      run := CountsTo(count, k - 1);
      run, s := GoOn(run, Write(Timer));
    }
    run, s := GoOn(run, Write(Proceed));
    run, s := GoOn(run, Write(Proceed));
  }

  /** The outcomes of a job, by the progress ticks before its sentinel. */
  predicate IsOutcome(count: int, status: Status, body: int) {
    match status
    case Running => false
    case Completed => body == count
    case Stopped => 1 <= body <= count
    case Failed => 0 <= body <= count
  }

  ghost predicate EndsAs(run: Run, count: int, status: Status, body: int) {
    IsRun(run) && var s := run.states[|run.events|];
                  s.count == count && s.shared.status == status && |s.shared.ticks| == body + 1
  }

  lemma CanComplete(count: int) returns (run: Run)
    requires ValidCount(count)
    ensures EndsAs(run, count, Completed, count)
  {
    run := CountsTo(count, count);
    var s: State;
    run, s := GoOn(run, Write(Timer));
    run, s := GoOn(run, Write(Proceed));
    run, s := GoOn(run, Write(Proceed));
  }

  /** A Stop call can stop a job wherever it waits in its select. */
  lemma CanStop(count: int, body: nat) returns (run: Run)
    requires ValidCount(count) && 1 <= body <= count
    ensures EndsAs(run, count, Stopped, body)
  {
    run := CountsTo(count, body);
    var s: State;
    run, s := GoOn(run, CallStop(Client(0)));
    run, s := GoOn(run, StopStep(Client(0)));
    run, s := GoOn(run, Write(CancelSeen));
    run, s := GoOn(run, Write(Proceed));
  }

  lemma CanFail(count: int, body: nat) returns (run: Run)
    requires ValidCount(count) && 0 <= body <= count
    ensures EndsAs(run, count, Failed, body)
  {
    var s: State;
    if body == 0 {
      s := Initial("", count, 0);
      run := Run([s], []);
    } else {
      run := CountsTo(count, body);
    }
    run, s := GoOn(run, Write(Panic("", false)));
    run, s := GoOn(run, Write(Proceed));
    run, s := GoOn(run, Write(Proceed));
  }

  ghost predicate StoppedAfterFirst(s: State) {
    && (s.shared.status == Stopped ==> |s.shared.ticks| >= 2)
    && (s.writer.Finishing? && s.writer.terminal == Stopped && s.shared.status == Running ==> |s.shared.ticks| >= 1)
  }

  lemma StoppedAfterFirstStep(s: State, choice: WriterChoice)
    requires WriterEnabled(s, choice) && StoppedAfterFirst(s) && WriterInv(s)
    ensures StoppedAfterFirst(WriterStep(s, choice))
  {
  }

  lemma StoppedAfterFirstKept(s: State, event: Event)
    requires Enabled(s, event) && StoppedAfterFirst(s) && WriterInv(s)
    ensures StoppedAfterFirst(Apply(s, event))
  {
    if event.Write? {
      StoppedAfterFirstStep(s, event.choice);
    } else {
      OnlyWritesMoveTheWriter(s, event);
    }
  }

  lemma {:induction false} StopsAfterFirst(run: Run, i: nat)
    requires IsRun(run) && i < |run.states|
    ensures StoppedAfterFirst(run.states[i])
  {
    if i > 0 {
      StopsAfterFirst(run, i - 1);
      InvHolds(run, i - 1);
      assert StepAt(run, i - 1);
      StoppedAfterFirstKept(run.states[i - 1], run.events[i - 1]);
    }
  }

  lemma OutcomeIsReached(count: int, status: Status, body: int)
    requires ValidCount(count) && IsOutcome(count, status, body)
    ensures exists run :: EndsAs(run, count, status, body)
  {
    match status
    case Completed => var run := CanComplete(count);
    case Stopped => var run := CanStop(count, body);
    case Failed => var run := CanFail(count, body);
  }

  /** A job that counts down from count can end in a status behind so many progress ticks if and only
      if it completes behind all of them, is stopped behind one or more, or fails behind any number. */
  lemma OutcomesExact(count: int, status: Status, body: int)
    requires ValidCount(count)
    ensures (exists run :: EndsAs(run, count, status, body)) && status != Running <==> IsOutcome(count, status, body)
  {
    if status != Running && exists run :: EndsAs(run, count, status, body) {
      var run :| EndsAs(run, count, status, body);
      BufferShape(run, |run.events|);
      InvHolds(run, |run.events|);
      StopsAfterFirst(run, |run.events|);
    }
    if IsOutcome(count, status, body) {
      OutcomeIsReached(count, status, body);
    }
  }
}
