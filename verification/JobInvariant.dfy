/** The inductive invariant of JobProtocol, and its preservation by every event. */
module JobInvariant {
  import opened Ticks
  import opened JobState
  import opened JobProtocol

  /** Elapsed values lie between zero and the time since the start, in order; the first is zero. */
  ghost predicate ElapsedInv(ticks: seq<Tick>, age: int) {
    && 0 <= age
    && (forall i :: 0 <= i < |ticks| && ticks[i].Progress? ==> 0 <= ticks[i].elapsed <= age)
    && (forall i, j :: 0 <= i < j < |ticks| && ticks[i].Progress? && ticks[j].Progress? ==>
          ticks[i].elapsed <= ticks[j].elapsed)
    && (|ticks| > 0 && ticks[0].Progress? ==> ticks[0].elapsed == 0)
  }

  /** A progress tick that may still be appended. */
  ghost predicate Timely(s: State, tick: Tick) {
    && tick.Progress?
    && tick.elapsed <= s.now - s.startedAt
    && ElapsedInv(s.shared.ticks, tick.elapsed)
  }

  /** Where the writer stands, and what the buffer holds there. */
  ghost predicate WriterInv(s: State) {
    var running := s.shared.status == Running;
    var length := |s.shared.ticks|;
    match s.writer
    case Starting => running && length == 0
    case Announced => running && length == 1
    case LoopHead(current) => running && 0 <= current < s.count && length == s.count - current
    case Selecting(current) => running && 0 <= current < s.count && length == s.count - current
    case Fired(current, tick) =>
      && running && 0 <= current < s.count && length == s.count - current
      && Timely(s, tick) && tick.remaining == current
    case Finishing(terminal, last, recovering) =>
      && Announces(last, terminal)
      && (recovering ==> terminal == Failed)
      && (!recovering ==> running)
      && (terminal == Completed ==> length == s.count && Timely(s, last))
      && (terminal == Stopped ==> s.requested)
    case Auditing(terminal, _) => s.shared.status == terminal && !running
    case Recovering(_) => true
    case _ => !running
  }

  /** The transition is recorded at most once, and as the status it led to. */
  ghost predicate AuditInv(s: State) {
    && (s.audits != [] ==> s.shared.status != Running && s.audits == [s.shared.status])
    && (s.writer.Auditing? ==> s.audits == [])
  }

  ghost predicate CancelInv(s: State) {
    && (s.shared.status == Stopped ==> s.requested)
    && (s.cause.Some? && !s.writer.Exited? ==> s.requested)
    && (s.requested ==> s.cause.Some?)
    && (s.finished <==> s.writer.Releasing? || s.writer.Exited?)
    && !s.refinished
  }

  ghost predicate StopInv(s: State, point: StopPoint) {
    match point
    case BeforeCancel => true
    case AwaitingFinish => s.requested
    case BeforeStatus => s.finished
    case Answered(status) => s.finished && status == s.shared.status
  }

  ghost predicate NoSentinel(ticks: seq<Tick>) {
    forall i :: 0 <= i < |ticks| ==> !ticks[i].IsTerminal()
  }

  /** Where a reader stands in the buffer. */
  ghost predicate PositionInv(sh: Shared, r: Reader) {
    && r.lo + r.next <= r.cursor <= |sh.ticks|
    && r.batch == sh.ticks[r.lo..r.cursor]
    && r.yielded == sh.ticks[..r.lo + r.next]
    && (r.point.AtLock? || r.point.Waiting? ==> r.lo + r.next == r.cursor)
    && (r.point.Waiting? ==> r.lo == r.cursor)
    && (r.point.Returned? && !r.point.exit.ContextEnded? ==> r.lo < r.cursor)
  }

  /** Why a reader is still going, or why it returned. */
  ghost predicate ExitInv(r: Reader) {
    match r.point
    case Returned(SentinelSeen) => |r.yielded| > 0 && r.yielded[|r.yielded| - 1].IsTerminal()
    case Returned(ConsumerStopped) => |r.yielded| > 0
    case Returned(ContextEnded) => NoSentinel(r.yielded) && r.contextDone && r.lo + r.next == r.cursor
    case _ => NoSentinel(r.yielded)
  }

  /** The channel a reader holds is the one that closes with the first tick after its slice. */
  ghost predicate WaitInv(sh: Shared, r: Reader) {
    r.point.Yielding? || r.point.Waiting? ==>
      r.wait == if r.cursor > 0 && r.cursor <= |sh.ticks| && sh.ticks[r.cursor - 1].IsTerminal()
                then r.cursor - 1 else r.cursor
  }

  /** An empty snapshot is always followed by a non-empty one. */
  ghost predicate SnapshotInv(sh: Shared, r: Reader) {
    match r.point
    case AtLock => r.snapshots <= 2 * r.cursor || (r.cursor < |sh.ticks| && r.snapshots <= 2 * r.cursor + 1)
    case _ => r.snapshots <= 2 * r.cursor || (r.lo == r.cursor && r.snapshots <= 2 * r.cursor + 1)
  }

  ghost predicate ReaderInv(sh: Shared, r: Reader) {
    PositionInv(sh, r) && ExitInv(r) && WaitInv(sh, r) && SnapshotInv(sh, r)
  }

  ghost predicate Inv(s: State) {
    && 1 <= s.count
    && SharedInv(s.count, s.shared)
    && ElapsedInv(s.shared.ticks, s.now - s.startedAt)
    && WriterInv(s)
    && AuditInv(s)
    && CancelInv(s)
    && (forall c :: c in s.stops ==> StopInv(s, s.stops[c]))
    && (forall r :: r in s.readers ==> ReaderInv(s.shared, s.readers[r]))
  }

  lemma InitialInv(id: string, count: int, now: int)
    requires 1 <= count
    ensures Inv(Initial(id, count, now))
  {
  }

  // The writer.

  /** What a writer step keeps of its own part of the invariant. */
  ghost predicate WriterPart(s: State) {
    && 1 <= s.count
    && SharedInv(s.count, s.shared)
    && ElapsedInv(s.shared.ticks, s.now - s.startedAt)
    && WriterInv(s) && AuditInv(s) && CancelInv(s)
  }

  lemma AppendElapsed(ticks: seq<Tick>, tick: Tick, age: int)
    requires ElapsedInv(ticks, age)
    requires tick.Progress? ==> tick.elapsed <= age && ElapsedInv(ticks, tick.elapsed)
    requires tick.Progress? && ticks == [] ==> tick.elapsed == 0
    ensures ElapsedInv(ticks + [tick], age)
  {
  }

  lemma StartKeeps(s: State)
    requires WriterPart(s) && s.writer.Starting?
    ensures WriterPart(WriterStep(s, Proceed))
    ensures Extends(s.shared, WriterStep(s, Proceed).shared)
  {
    ReportProgressKeeps(s.count, s.shared, Progress(0, s.count));
    AppendElapsed(s.shared.ticks, Progress(0, s.count), s.now - s.startedAt);
  }

  lemma FiredKeeps(s: State)
    requires WriterPart(s) && s.writer.Fired?
    ensures WriterPart(WriterStep(s, Proceed))
    ensures Extends(s.shared, WriterStep(s, Proceed).shared)
  {
    var tick := s.writer.tick;
    if !tick.IsTerminal() {
      ReportProgressKeeps(s.count, s.shared, tick);
      AppendElapsed(s.shared.ticks, tick, s.now - s.startedAt);
    }
  }

  lemma FinishKeeps(s: State)
    requires WriterPart(s) && s.writer.Finishing?
    ensures WriterPart(WriterStep(s, Proceed))
    ensures Extends(s.shared, WriterStep(s, Proceed).shared)
  {
    SetTerminalKeeps(s.count, s.shared, s.writer.terminal, s.writer.last);
    if s.shared.status == Running {
      AppendElapsed(s.shared.ticks, s.writer.last, s.now - s.startedAt);
    }
  }

  lemma PanicKeeps(s: State, message: string, recorded: bool)
    requires WriterPart(s) && WriterEnabled(s, Panic(message, recorded))
    ensures WriterPart(WriterStep(s, Panic(message, recorded)))
  {
  }

  /** What the select comes to. */
  lemma SelectKeeps(s: State, choice: WriterChoice)
    requires WriterPart(s) && s.writer.Selecting? && WriterEnabled(s, choice) && !choice.Panic?
    ensures WriterPart(WriterStep(s, choice))
  {
  }

  /** The writer is past its loop. */
  predicate IsLeaving(w: Writer) {
    w.Auditing? || w.Recovering? || w.Closing? || w.Releasing?
  }

  lemma LoopStepKeeps(s: State)
    requires WriterPart(s) && (s.writer.Announced? || s.writer.LoopHead?)
    ensures WriterPart(Proceeding(s))
  {
  }

  lemma LeavingStepKeeps(s: State)
    requires WriterPart(s) && IsLeaving(s.writer)
    ensures WriterPart(Proceeding(s))
  {
  }

  /** The steps that touch nothing under the mutex. */
  lemma PrivateStepKeeps(s: State, choice: WriterChoice)
    requires WriterPart(s) && WriterEnabled(s, choice)
    requires choice.Proceed? ==> !s.writer.Starting? && !s.writer.Fired? && !s.writer.Finishing?
    ensures WriterPart(WriterStep(s, choice))
    ensures WriterStep(s, choice).shared == s.shared
  {
    match choice
    case Panic(message, recorded) => PanicKeeps(s, message, recorded);
    case Proceed =>
      if IsLeaving(s.writer) {
        LeavingStepKeeps(s);
      } else {
        LoopStepKeeps(s);
      }
    case _ => SelectKeeps(s, choice);
  }

  lemma WriterStepKeeps(s: State, choice: WriterChoice)
    requires WriterPart(s) && WriterEnabled(s, choice)
    ensures WriterPart(WriterStep(s, choice))
    ensures Extends(s.shared, WriterStep(s, choice).shared)
  {
    if choice.Proceed? && s.writer.Starting? {
      StartKeeps(s);
    } else if choice.Proceed? && s.writer.Fired? {
      FiredKeeps(s);
    } else if choice.Proceed? && s.writer.Finishing? {
      FinishKeeps(s);
    } else {
      PrivateStepKeeps(s, choice);
    }
  }

  /** A reader's position survives whatever the writer appends. */
  lemma ReaderSurvives(count: int, sh: Shared, after: Shared, r: Reader)
    requires SharedInv(count, sh) && SharedInv(count, after) && Extends(sh, after)
    requires ReaderInv(sh, r)
    ensures ReaderInv(after, r)
  {
  }

  /** A Stop call's answer survives whatever the writer does next. */
  lemma StopsSurvive(s: State, after: State)
    requires WriterPart(s) && Extends(s.shared, after.shared)
    requires s.finished ==> after.finished
    requires s.requested ==> after.requested
    requires after.stops == s.stops
    requires forall c :: c in s.stops ==> StopInv(s, s.stops[c])
    ensures forall c :: c in after.stops ==> StopInv(after, after.stops[c])
  {
    forall c | c in after.stops ensures StopInv(after, after.stops[c]) {
      assert StopInv(s, s.stops[c]);
    }
  }

  lemma ReadersSurvive(s: State, after: State)
    requires SharedInv(s.count, s.shared) && SharedInv(s.count, after.shared) && Extends(s.shared, after.shared)
    requires after.readers == s.readers
    requires forall r :: r in s.readers ==> ReaderInv(s.shared, s.readers[r])
    ensures forall r :: r in after.readers ==> ReaderInv(after.shared, after.readers[r])
  {
    forall r | r in after.readers ensures ReaderInv(after.shared, after.readers[r]) {
      ReaderSurvives(s.count, s.shared, after.shared, s.readers[r]);
    }
  }

  lemma WriteKeeps(s: State, choice: WriterChoice)
    requires Inv(s) && Enabled(s, Write(choice))
    ensures Inv(Apply(s, Write(choice)))
  {
    var after := Apply(s, Write(choice));
    assert WriterPart(s);
    WriterStepKeeps(s, choice);
    StopsSurvive(s, after);
    ReadersSurvive(s, after);
  }

  // Readers.

  lemma TakeKeeps(count: int, sh: Shared, r: Reader)
    requires SharedInv(count, sh) && ReaderInv(sh, r)
    requires ReaderEnabled(sh, r, Take)
    ensures ReaderInv(sh, ReaderStep(sh, r, Take))
  {
    forall i: nat | i < |sh.ticks|
      ensures sh.ticks[i].IsTerminal() <==> sh.status != Running && i == |sh.ticks| - 1
    {
      SentinelIsLast(count, sh, i);
    }
  }

  lemma DeliverKeeps(sh: Shared, r: Reader, accepted: bool)
    requires ReaderInv(sh, r)
    requires ReaderEnabled(sh, r, Deliver(accepted))
    ensures ReaderInv(sh, ReaderStep(sh, r, Deliver(accepted)))
  {
  }

  /** A reader holds a channel, and has taken no sentinel. */
  ghost predicate Holding(r: Reader) {
    r.point.Waiting? || (r.point.Yielding? && NoSentinel(r.batch))
  }

  /** The channel a reader holds is closed exactly when there is a tick it has not taken. */
  lemma WaitingMeans(count: int, sh: Shared, r: Reader)
    requires SharedInv(count, sh) && ReaderInv(sh, r)
    requires Holding(r)
    ensures r.wait == r.cursor
    ensures r.wait in sh.closed <==> r.cursor < |sh.ticks|
    ensures r.wait !in sh.closed <==> r.cursor == |sh.ticks| && sh.status == Running && r.wait == sh.changed
  {
    if r.cursor > 0 {
      assert if r.batch == [] then !r.yielded[r.cursor - 1].IsTerminal()
             else !r.batch[|r.batch| - 1].IsTerminal();
      SentinelIsLast(count, sh, r.cursor - 1);
    }
  }

  lemma ReaderStepKeeps(count: int, sh: Shared, r: Reader, act: ReaderChoice)
    requires SharedInv(count, sh) && ReaderInv(sh, r)
    requires ReaderEnabled(sh, r, act)
    ensures ReaderInv(sh, ReaderStep(sh, r, act))
  {
    match act
    case Take => TakeKeeps(count, sh, r);
    case Deliver(accepted) => DeliverKeeps(sh, r, accepted);
    case Drained =>
    case Wake => WaitingMeans(count, sh, r);
    case Leave =>
  }

  lemma ReadKeeps(s: State, reader: nat, act: ReaderChoice)
    requires Inv(s) && Enabled(s, Read(reader, act))
    ensures Inv(Apply(s, Read(reader, act)))
  {
    ReaderStepKeeps(s.count, s.shared, s.readers[reader], act);
    OthersKeep(s, Apply(s, Read(reader, act)));
  }

  /** Everything but the readers depends on everything but the readers. */
  lemma OthersKeep(s: State, after: State)
    requires Inv(s)
    requires after == s.(readers := after.readers)
    requires forall r :: r in after.readers ==> ReaderInv(s.shared, after.readers[r])
    ensures Inv(after)
  {
    assert WriterInv(after);
    forall c | c in after.stops ensures StopInv(after, after.stops[c]) {
      assert StopInv(s, s.stops[c]);
    }
  }

  lemma OpenKeeps(s: State, reader: nat)
    requires Inv(s) && Enabled(s, Open(reader))
    ensures Inv(Apply(s, Open(reader)))
  {
    OthersKeep(s, Apply(s, Open(reader)));
  }

  lemma ContextReaderKeeps(sh: Shared, r: Reader)
    requires ReaderInv(sh, r)
    ensures ReaderInv(sh, r.(contextDone := true))
  {
  }

  lemma EndContextKeeps(s: State, reader: nat)
    requires Inv(s) && Enabled(s, EndContext(reader))
    ensures Inv(Apply(s, EndContext(reader)))
  {
    ContextReaderKeeps(s.shared, s.readers[reader]);
    OthersKeep(s, Apply(s, EndContext(reader)));
  }

  lemma StopStepKeeps(s: State, caller: Caller)
    requires Inv(s) && Enabled(s, StopStep(caller))
    ensures Inv(Apply(s, StopStep(caller)))
  {
    var after := Stopping(s, caller);
    assert WriterInv(after);
    forall c | c in after.stops ensures StopInv(after, after.stops[c]) {
      assert c in s.stops && StopInv(s, s.stops[c]);
    }
  }

  /** Stop calls depend on little: a call that has just begun holds nothing. */
  lemma StopsStay(s: State, after: State)
    requires forall c :: c in s.stops ==> StopInv(s, s.stops[c])
    requires after.shared == s.shared && after.finished == s.finished && (s.requested ==> after.requested)
    requires forall c :: c in after.stops ==>
               after.stops[c].BeforeCancel? || (c in s.stops && after.stops[c] == s.stops[c])
    ensures forall c :: c in after.stops ==> StopInv(after, after.stops[c])
  {
    forall c | c in after.stops ensures StopInv(after, after.stops[c]) {
      assert c in s.stops ==> StopInv(s, s.stops[c]);
    }
  }

  lemma ClockKeeps(s: State, instant: int)
    requires Inv(s) && Enabled(s, Clock(instant))
    ensures Inv(Apply(s, Clock(instant)))
  {
    var after := Apply(s, Clock(instant));
    assert ElapsedInv(after.shared.ticks, after.now - after.startedAt);
    assert WriterInv(after);
    StopsStay(s, after);
  }

  lemma ParentDoneKeeps(s: State, cause: Cause)
    requires Inv(s)
    ensures Inv(Apply(s, ParentDone(cause)))
  {
    var after := Apply(s, ParentDone(cause));
    assert WriterInv(after);
    StopsStay(s, after);
  }

  lemma CallStopKeeps(s: State, caller: Caller)
    requires Inv(s) && Enabled(s, CallStop(caller))
    ensures Inv(Apply(s, CallStop(caller)))
  {
    var after := Apply(s, CallStop(caller));
    assert WriterInv(after);
    StopsStay(s, after);
  }

  lemma ApplyKeeps(s: State, event: Event)
    requires Inv(s) && Enabled(s, event)
    ensures Inv(Apply(s, event))
  {
    match event
    case Write(choice) => WriteKeeps(s, choice);
    case Read(reader, act) => ReadKeeps(s, reader, act);
    case StopStep(caller) => StopStepKeeps(s, caller);
    case Open(reader) => OpenKeeps(s, reader);
    case EndContext(reader) => EndContextKeeps(s, reader);
    case Clock(instant) => ClockKeeps(s, instant);
    case ParentDone(cause) => ParentDoneKeeps(s, cause);
    case CallStop(caller) => CallStopKeeps(s, caller);
  }

  /** No event takes back what the buffer holds or moves a job that has finished. */
  lemma ApplyExtends(s: State, event: Event)
    requires Inv(s) && Enabled(s, event)
    ensures Extends(s.shared, Apply(s, event).shared)
  {
    if event.Write? {
      WriterStepKeeps(s, event.choice);
    }
  }
}
