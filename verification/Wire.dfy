/** The ticks a stream carries on the wire (internal/server/service.go). */
module Wire {
  import opened Ticks
  import opened JobState
  import opened JobProtocol
  import opened JobTheorems

  const NANOS_PER_SECOND: int := 1_000_000_000
  const TWO_TO_THE_32: int := 0x1_0000_0000

  newtype int32 = x: int | -0x8000_0000 <= x < 0x8000_0000

  /** The generated message: a progress carries its elapsed time as seconds and nanoseconds. */
  datatype WireTick =
    | WireProgress(seconds: int, nanos: int, remaining: int32)
    | WireStopped
    | WireFailure(message: string)
  {
    /** What the contract of the stream calls terminal. */
    predicate IsTerminal() {
      match this
      case WireProgress(_, _, remaining) => remaining == 0
      case WireStopped => true
      case WireFailure(_) => true
    }
  }

  const UNEXPECTED: string := "unexpected error"

  /** Go's conversion int32(x): the low 32 bits, read as a signed value. */
  function ToInt32(x: int): int32 {
    var low := x % TWO_TO_THE_32;
    (if low < 0x8000_0000 then low else low - TWO_TO_THE_32) as int32
  }

  /** Go's division truncates towards zero. */
  function TruncatedDiv(a: int, b: int): int
    requires 0 < b
  {
    if 0 <= a then a / b else -(-a / b)
  }

  function ProtoTick(tick: Tick): WireTick {
    match tick
    case Progress(elapsed, remaining) =>
      var seconds := TruncatedDiv(elapsed, NANOS_PER_SECOND);
      WireProgress(seconds, elapsed - seconds * NANOS_PER_SECOND, ToInt32(remaining))
    case StoppedTick(_) => WireStopped
    case PanicError(_) => WireFailure(UNEXPECTED)
  }

  function ProtoTicks(ticks: seq<Tick>): seq<WireTick> {
    seq(|ticks|, i requires 0 <= i < |ticks| => ProtoTick(ticks[i]))
  }

  /** The messages a StreamOutput handler has sent: one for each tick it was handed, but for the one
      whose send failed and ended the iteration. */
  function Sent(r: Reader): seq<WireTick> {
    if r.point == Returned(ConsumerStopped) && |r.yielded| > 0
    then ProtoTicks(r.yielded[..|r.yielded| - 1])
    else ProtoTicks(r.yielded)
  }

  /** Seconds and nanoseconds have the sign of the duration, and nanoseconds are less than a second. */
  predicate Splits(elapsed: int, seconds: int, nanos: int) {
    && seconds * NANOS_PER_SECOND + nanos == elapsed
    && -NANOS_PER_SECOND < nanos < NANOS_PER_SECOND
    && (0 <= elapsed ==> 0 <= seconds && 0 <= nanos)
    && (elapsed <= 0 ==> seconds <= 0 && nanos <= 0)
  }

  lemma TruncationSplits(elapsed: int)
    ensures var seconds := TruncatedDiv(elapsed, NANOS_PER_SECOND);
            Splits(elapsed, seconds, elapsed - seconds * NANOS_PER_SECOND)
  {
  }

  /** The conversion to 32 bits keeps the value modulo 2^32, and so loses nothing that fits. */
  lemma ToInt32Exact(x: int)
    ensures (ToInt32(x) as int - x) % 0x1_0000_0000 == 0
    ensures -0x8000_0000 <= x < 0x8000_0000 ==> ToInt32(x) as int == x
  {
    assert x == x / TWO_TO_THE_32 * TWO_TO_THE_32 + x % TWO_TO_THE_32;
  }

  /** A tick keeps its kind, its elapsed time and, as far as 32 bits go, its remaining count on the
      wire; its terminality too, where they do. */
  lemma ProtoTickFaithful(tick: Tick)
    ensures (tick.Progress? ==> -0x8000_0000 <= tick.remaining < 0x8000_0000) ==>
              (ProtoTick(tick).IsTerminal() <==> tick.IsTerminal())
    ensures tick.Progress? <==> ProtoTick(tick).WireProgress?
    ensures tick.StoppedTick? <==> ProtoTick(tick).WireStopped?
    ensures tick.Progress? && -0x8000_0000 <= tick.remaining < 0x8000_0000 ==>
              ProtoTick(tick).remaining as int == tick.remaining
    ensures tick.Progress? ==> Splits(tick.elapsed, ProtoTick(tick).seconds, ProtoTick(tick).nanos)
  {
    if tick.Progress? {
      TruncationSplits(tick.elapsed);
      ToInt32Exact(tick.remaining);
    }
  }

  /** Two ticks that differ at most in why the job was cancelled or what it panicked with. */
  predicate DifferInCause(p: Tick, q: Tick) {
    p == q || (p.StoppedTick? && q.StoppedTick?) || (p.PanicError? && q.PanicError?)
  }

  ghost predicate DifferInCauses(p: seq<Tick>, q: seq<Tick>) {
    |p| == |q| && forall k :: 0 <= k < |p| ==> DifferInCause(p[k], q[k])
  }

  /** A failure carries the one fixed description. */
  lemma FailureSaysNothing(message: string)
    ensures ProtoTick(PanicError(message)) == WireFailure("unexpected error")
  {
  }

  /** Nothing of a cause goes over the wire: buffers that differ in causes alone send the same. */
  lemma CausesStayBehind(p: seq<Tick>, q: seq<Tick>)
    requires DifferInCauses(p, q)
    ensures ProtoTicks(p) == ProtoTicks(q)
  {
    forall k | 0 <= k < |p| ensures ProtoTick(p[k]) == ProtoTick(q[k]) {
      assert DifferInCause(p[k], q[k]);
      if p[k].PanicError? {
        FailureSaysNothing(p[k].message);
        FailureSaysNothing(q[k].message);
      }
    }
  }

  /** Two streams that were handed as many ticks, alike but for causes, have sent the same messages. */
  lemma StreamsSayTheSame(r: Reader, q: Reader)
    requires DifferInCauses(r.yielded, q.yielded) && r.point == q.point
    ensures Sent(r) == Sent(q)
  {
    CausesStayBehind(r.yielded, q.yielded);
    if r.point == Returned(ConsumerStopped) && |r.yielded| > 0 {
      CausesStayBehind(r.yielded[..|r.yielded| - 1], q.yielded[..|q.yielded| - 1]);
    }
  }

  /** The sends that succeeded. */
  function Sends(events: seq<Event>, r: nat): nat {
    if events == [] then 0
    else Sends(events[..|events| - 1], r) + (if events[|events| - 1] == Read(r, Deliver(true)) then 1 else 0)
  }

  lemma SendStep(s: State, event: Event, r: nat)
    requires Enabled(s, event) && r in s.readers
    ensures r in Apply(s, event).readers
    ensures |Sent(Apply(s, event).readers[r])| ==
            |Sent(s.readers[r])| + (if event == Read(r, Deliver(true)) then 1 else 0)
  {
    if event.Read? && event.reader == r {
      ReaderSendStep(s.shared, s.readers[r], event.act);
    } else {
      OthersLeaveReader(s, event, r);
    }
  }

  lemma ReaderSendStep(sh: Shared, r: Reader, act: ReaderChoice)
    requires ReaderEnabled(sh, r, act)
    ensures |Sent(ReaderStep(sh, r, act))| == |Sent(r)| + (if act == Deliver(true) then 1 else 0)
  {
  }

  /** A stream has sent one message for each send that succeeded, and none for one that failed. */
  lemma {:induction false} SentIsWhatWasSent(run: Run, i: nat, r: nat)
    requires IsRun(run) && i < |run.states|
    ensures Sends(run.events[..i], r) == if r in run.states[i].readers then |Sent(run.states[i].readers[r])| else 0
  {
    if i > 0 {
      SentIsWhatWasSent(run, i - 1, r);
      assert StepAt(run, i - 1);
      assert run.events[..i][..i - 1] == run.events[..i - 1];
      if r in run.states[i - 1].readers {
        SendStep(run.states[i - 1], run.events[i - 1], r);
      }
    }
  }

  /** Every tick of a reachable buffer converts without loss. */
  lemma BufferConverts(run: Run, i: nat, k: nat)
    requires IsRun(run) && i < |run.states| && k < |run.states[i].shared.ticks|
    ensures var sh := run.states[i].shared;
            && (sh.ticks[k].Progress? ==> 0 <= sh.ticks[k].remaining <= MAX_COUNT && 0 <= sh.ticks[k].elapsed)
            && (sh.ticks[k].IsTerminal() <==> sh.status != Running && k == |sh.ticks| - 1)
  {
    InvHolds(run, i);
    SentinelIsLast(run.states[i].count, run.states[i].shared, k);
  }

  lemma SentIsImage(ticks: seq<Tick>, r: Reader)
    requires r.yielded <= ticks
    ensures Sent(r) <= ProtoTicks(ticks)
    ensures r.point == Returned(SentinelSeen) && r.yielded == ticks ==> Sent(r) == ProtoTicks(ticks)
  {
  }

  /** A sent message says what the tick behind it says. */
  ghost predicate SameOnTheWire(tick: Tick, message: WireTick) {
    && (message.IsTerminal() <==> tick.IsTerminal())
    && (tick.Progress? <==> message.WireProgress?)
    && (tick.StoppedTick? <==> message.WireStopped?)
    && (tick.Progress? ==>
          message.remaining as int == tick.remaining && Splits(tick.elapsed, message.seconds, message.nanos))
    && (tick.PanicError? ==> message == WireFailure("unexpected error"))
  }

  /** Every stream sends the wire image of a prefix of the buffer, message by message, with nothing
      lost in conversion; a message is terminal exactly when it is the image of the sentinel; and a
      stream that ended on the sentinel has sent the image of the whole final buffer. */
  lemma StreamRefinesBuffer(run: Run, i: nat, r: nat)
    requires IsRun(run) && i < |run.states|
    requires r in run.states[i].readers
    ensures var sh, sent := run.states[i].shared, Sent(run.states[i].readers[r]);
            && sent <= ProtoTicks(sh.ticks)
            && (forall k :: 0 <= k < |sent| ==> SameOnTheWire(sh.ticks[k], sent[k]))
            && (forall k :: 0 <= k < |sent| ==>
                  (sent[k].IsTerminal() <==> sh.status != Running && k == |sh.ticks| - 1))
            && (run.states[i].readers[r].point == Returned(SentinelSeen) ==>
                  sh.status != Running && sent == ProtoTicks(sh.ticks))
  {
    Delivery(run, i, i, r);
    var sh, sent := run.states[i].shared, Sent(run.states[i].readers[r]);
    SentIsImage(sh.ticks, run.states[i].readers[r]);
    forall k | 0 <= k < |sent|
      ensures SameOnTheWire(sh.ticks[k], sent[k])
      ensures sent[k].IsTerminal() <==> sh.status != Running && k == |sh.ticks| - 1
    {
      BufferConverts(run, i, k);
      assert sent[k] == ProtoTicks(sh.ticks)[k];
      ProtoTickFaithful(sh.ticks[k]);
      if sh.ticks[k].PanicError? {
        FailureSaysNothing(sh.ticks[k].message);
      }
    }
  }
}
