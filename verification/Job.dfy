/** The job object over its preallocated buffer, and the sections that run under its mutex, each
    proved to be the step of JobState of the same name (internal/worker/job.go). */
module Jobs {
  import opened Wrappers
  import opened Ticks
  import opened JobState
  import opened JobProtocol
  import opened JobInvariant
  import opened JobTheorems

  /** A Go channel used only to be closed: closing it twice panics. */
  class Channel {
    var closed: bool

    constructor ()
      ensures !closed
    {
      closed := false;
    }

    method Close()
      requires !closed
      modifies this
      ensures closed
    {
      closed := true;
    }
  }

  /** What the select of one turn of the countdown comes to. */
  datatype Turn = Fires(elapsed: int) | Cancels(cause: Cause) | Panics(message: string)

  /** The tick a turn emits when current is left to count. */
  function TickOf(current: int, turn: Turn): Tick {
    match turn
    case Fires(elapsed) => Progress(elapsed, current)
    case Cancels(cause) => StoppedTick(cause)
    case Panics(message) => PanicError(message)
  }

  /** The status a last turn leads to. */
  function Outcome(turn: Turn): Status {
    match turn
    case Fires(_) => Completed
    case Cancels(_) => Stopped
    case Panics(_) => Failed
  }

  /** The ticks a countdown emits from current on. */
  function Transcript(current: int, turns: int -> Turn): seq<Tick>
    decreases current
  {
    if current < 0 then []
    else if turns(current).Fires? && current > 0 then
      [TickOf(current, turns(current))] + Transcript(current - 1, turns)
    else
      [TickOf(current, turns(current))]
  }

  function ToCome(over: bool, current: int, turns: int -> Turn): seq<Tick> {
    if over then [] else Transcript(current, turns)
  }

  /** One turn moves one tick from what is to come to what was emitted. */
  lemma TranscriptStep(current: int, turns: int -> Turn, emitted: seq<Tick>)
    requires 0 <= current
    ensures emitted + Transcript(current, turns) ==
            (emitted + [TickOf(current, turns(current))]) +
            (if turns(current).Fires? && current > 0 then Transcript(current - 1, turns) else [])
  {
  }

  lemma {:induction false} TranscriptAt(current: int, turns: int -> Turn, last: int, k: int)
    requires 0 <= last <= current && 0 <= k <= current - last
    requires forall j :: last < j <= current ==> turns(j).Fires?
    requires last == 0 || !turns(last).Fires?
    ensures |Transcript(current, turns)| == current - last + 1
    ensures Transcript(current, turns)[k] == TickOf(current - k, turns(current - k))
    decreases current
  {
    if last < current {
      TranscriptAt(current - 1, turns, last, if k > 0 then k - 1 else 0);
    }
  }

  /** A countdown emits one progress tick for each turn that fires, down to the first that does not
      or to zero, and ends on the sentinel of the status that turn leads to. */
  lemma {:induction false} TranscriptEnds(current: int, turns: int -> Turn, last: int)
    requires 0 <= last <= current
    requires forall k :: last < k <= current ==> turns(k).Fires?
    requires last == 0 || !turns(last).Fires?
    ensures |Transcript(current, turns)| == current - last + 1
    ensures forall k :: 0 <= k < current - last ==>
              Transcript(current, turns)[k] == Progress(turns(current - k).elapsed, current - k)
    ensures Announces(Transcript(current, turns)[current - last], Outcome(turns(last)))
    ensures match turns(last)
            case Fires(elapsed) => Transcript(current, turns)[current - last] == Progress(elapsed, 0)
            case Cancels(cause) => Transcript(current, turns)[current - last] == StoppedTick(cause)
            case Panics(message) => Transcript(current, turns)[current - last] == PanicError(message)
  {
    TranscriptAt(current, turns, last, current - last);
    forall k | 0 <= k < current - last
      ensures Transcript(current, turns)[k] == Progress(turns(current - k).elapsed, current - k)
    {
      TranscriptAt(current, turns, last, k);
    }
  }

  /** Whatever the interleaving, the goroutine only brings to the locked sections what their methods
      below ask for. */
  lemma GoroutineMeetsContracts(run: Run, i: nat)
    requires IsRun(run) && i < |run.states|
    ensures var s := run.states[i];
            match s.writer
            case Starting => MayReport(s.count, s.shared, Progress(0, s.count))
            case Fired(_, tick) =>
              if tick.IsTerminal() then MayFinish(s.count, s.shared, Completed, tick)
              else MayReport(s.count, s.shared, tick)
            case Finishing(terminal, last, _) => MayFinish(s.count, s.shared, terminal, last)
            case _ => true
  {
    InvHolds(run, i);
  }

  class Job {
    const id: string
    var status: Status
    var buffer: array<Tick>
    var length: nat
    var changed: Channel
    const finished: Channel

    /** Every channel that changed has been, in order: generation g of the model is channels[g]. */
    ghost var channels: seq<Channel>

    /** The count the job was started with, which its buffer was allocated for. */
    ghost function Count(): int
      reads this`buffer
    {
      buffer.Length - 1
    }

    /** The state this object stands for. */
    ghost function Abs(): Shared
      reads this`status, this`buffer, this`length, buffer
      requires length <= buffer.Length
    {
      Standing(status, buffer[..length])
    }

    /** The channels are different objects, changed is the current one, and those are closed that the
        model has closed. */
    ghost predicate ChannelsStand()
      reads this, buffer, channels
      requires length <= buffer.Length
    {
      && |channels| == Abs().made
      && Abs().changed < Abs().made && channels[Abs().changed] == changed
      && finished !in channels
      && (forall g, h :: 0 <= g < h < |channels| ==> channels[g] != channels[h])
      && (forall g: nat :: g < |channels| ==> (channels[g].closed <==> g in Abs().closed))
    }

    /** The buffer is the one allocated with the job. */
    ghost predicate Valid()
      reads this, buffer, channels
    {
      && 1 <= Count()
      && length <= buffer.Length
      && SharedInv(Count(), Abs())
      && ChannelsStand()
    }

    constructor (id: string, count: int)
      requires 1 <= count
      ensures Valid() && this.id == id && Count() == count
      ensures Abs() == FRESH && !finished.closed
      ensures fresh(buffer) && fresh(changed) && fresh(finished) && channels == [changed]
    {
      this.id := id;
      status := Running;
      buffer := new Tick[count + 1];
      length := 0;
      changed := new Channel();
      finished := new Channel();
      channels := [changed];
    }

    /** Go's append: in place while there is capacity, into a larger array otherwise. */
    method Append(tick: Tick)
      requires length <= buffer.Length
      modifies this`buffer, this`length, buffer
      ensures length == old(length) + 1 <= buffer.Length
      ensures buffer[..length] == old(buffer[..length]) + [tick]
      ensures if old(length) < old(buffer.Length) then buffer == old(buffer) else fresh(buffer)
    {
      if length == buffer.Length {
        var grown := new Tick[2 * length + 1];
        forall i | 0 <= i < length {
          grown[i] := buffer[i];
        }
        buffer := grown;
      }
      buffer[length] := tick;
      length := length + 1;
    }

    /** Emits a tick unless the job has finished. The array stays, and so does all it held. */
    method ReportProgress(tick: Tick)
      requires Valid()
      requires MayReport(Count(), Abs(), tick)
      modifies this`buffer, this`length, this`changed, this`channels, buffer, changed
      ensures Valid()
      ensures Abs() == old(Abs()).ReportProgress(tick)
      ensures buffer == old(buffer) && buffer[..old(length)] == old(buffer[..length])
      ensures old(changed).closed && old(channels) <= channels
      ensures changed == old(changed) || (fresh(changed) && !changed.closed)
    {
      ReportProgressKeeps(Count(), Abs(), tick);
      StatusAndTicksSettle(Count(), Abs().ReportProgress(tick));
      if status == Running {
        Append(tick);
        changed.Close();
        changed := new Channel();
        channels := channels + [changed];
      }
    }

    /** Moves a running job to its terminal status and appends the sentinel, or does nothing. */
    method SetTerminal(terminal: Status, last: Tick) returns (won: bool)
      requires Valid()
      requires MayFinish(Count(), Abs(), terminal, last)
      modifies this`status, this`buffer, this`length, buffer, changed
      ensures Valid() && status != Running
      ensures (Abs(), won) == old(Abs()).SetTerminal(terminal, last)
      ensures buffer == old(buffer) && buffer[..old(length)] == old(buffer[..length])
      ensures changed.closed && channels == old(channels)
    {
      SetTerminalKeeps(Count(), Abs(), terminal, last);
      StatusAndTicksSettle(Count(), Abs().SetTerminal(terminal, last).0);
      if status != Running {
        return false;
      }
      status := terminal;
      Append(last);
      changed.Close();
      return true;
    }

    /** What a reader takes under the lock: the slice from its cursor on, and the channel to wait for. */
    method Snapshot(cursor: nat) returns (hi: nat, wait: Channel)
      requires Valid() && cursor <= length
      ensures hi == length == |Abs().ticks| && wait == changed
      ensures wait.closed <==> status != Running
    {
      hi := length;
      wait := changed;
    }

    /** One turn of the countdown loop: what the select comes to, and what is done about it. The ticks
        emitted and those to come stay the same in all. */
    method TakeTurn(current: int, turns: int -> Turn) returns (over: bool)
      requires Valid() && status == Running
      requires 0 <= current < Count() && length == Count() - current
      modifies this`status, this`buffer, this`length, this`changed, this`channels, buffer, changed
      ensures Valid() && buffer == old(buffer)
      ensures changed == old(changed) || fresh(changed)
      ensures Abs().ticks == old(Abs()).ticks + [TickOf(current, turns(current))]
      ensures status == if turns(current).Fires? && current > 0 then Running else Outcome(turns(current))
      ensures over <==> status != Running
      ensures Abs().ticks + ToCome(over, current - 1, turns) == old(Abs()).ticks + Transcript(current, turns)
    {
      TranscriptStep(current, turns, Abs().ticks);
      var turn := turns(current);
      var tick := TickOf(current, turn);
      if turn.Fires? && !tick.IsTerminal() {
        ReportProgress(tick);
        over := false;
      } else {
        over := SetTerminal(Outcome(turn), tick);
      }
    }

    /** The countdown loop from start. It only ends by a break: its counter never goes below zero. */
    method CountDown(start: int, turns: int -> Turn)
      requires Valid() && status == Running
      requires 0 <= start < Count() && length == Count() - start
      modifies this`status, this`buffer, this`length, this`changed, this`channels, buffer, changed
      ensures Valid() && status != Running && buffer == old(buffer)
      ensures Abs().ticks == old(Abs()).ticks + Transcript(start, turns)
    {
      var current := start;
      ghost var whole := Abs().ticks + Transcript(start, turns);
      while current >= 0
        invariant Valid() && buffer == old(buffer)
        invariant changed == old(changed) || fresh(changed)
        invariant status == Running && 0 <= current < Count() && length == Count() - current
        invariant Abs().ticks + ToCome(false, current, turns) == whole
      {
        var over := TakeTurn(current, turns);
        if over {
          break;
        }
        current := current - 1;
      }
      assert Abs().ticks + [] == Abs().ticks;
    }

    /** The countdown goroutine from start, left to itself: turns says what each select comes to. */
    method RunCountdown(start: int, turns: int -> Turn)
      requires start == Count()
      requires Valid() && Abs() == FRESH && !finished.closed
      modifies this`status, this`buffer, this`length, this`changed, this`channels, buffer, changed, finished
      ensures Valid() && status != Running && finished.closed
      ensures buffer == old(buffer)
      ensures buffer[..length] == [Progress(0, Count())] + Transcript(Count() - 1, turns)
    {
      ReportProgress(Progress(0, start));
      CountDown(start - 1, turns);
      CloseFinished();
    }

    /** The deferred close: it touches no channel a reader waits for. */
    method CloseFinished()
      requires Valid() && !finished.closed
      modifies finished
      ensures Valid() && finished.closed
    {
      finished.Close();
    }

    /** A Ticks iteration over a job nobody else moves: accepts says which ticks the consumer takes.
        It blocks, and returns no exit, exactly where it has drained a running job. */
    method Ticks(accepts: nat -> bool, contextDone: bool) returns (yielded: seq<Tick>, exit: Option<Exit>)
      requires Valid()
      ensures yielded <= buffer[..length]
      ensures forall k: nat :: k + 1 < |yielded| ==> accepts(k) && !yielded[k].IsTerminal()
      ensures exit == Some(ConsumerStopped) <==> |yielded| > 0 && !accepts(|yielded| - 1)
      ensures exit == Some(SentinelSeen) ==> status != Running && yielded == buffer[..length]
      ensures exit == Some(ContextEnded) ==> contextDone && status == Running && yielded == buffer[..length]
      ensures exit == None ==> !contextDone && status == Running && yielded == buffer[..length]
    {
      yielded := [];
      var cursor: nat := 0;
      while true
        invariant cursor <= length && yielded == Abs().ticks[..cursor]
        invariant NoSentinel(yielded)
        invariant forall k: nat :: k < |yielded| ==> accepts(k)
        decreases length - cursor
      {
        var lo := cursor;
        var hi, wait := Snapshot(cursor);
        cursor := hi;
        var i := lo;
        while i < hi
          invariant lo <= i <= hi && yielded == Abs().ticks[..i]
          invariant NoSentinel(yielded)
          invariant forall k: nat :: k < |yielded| ==> accepts(k)
        {
          var tick := buffer[i];
          yielded := yielded + [tick];
          if !accepts(i) {
            return yielded, Some(ConsumerStopped);
          }
          if tick.IsTerminal() {
            SentinelIsLast(Count(), Abs(), i);
            return yielded, Some(SentinelSeen);
          }
          i := i + 1;
        }
        if lo == hi {
          if length > 0 {
            SentinelIsLast(Count(), Abs(), length - 1);
            assert !yielded[length - 1].IsTerminal();
          }
          // The channel is open here, so the select waits for the context or for another tick.
          assert !wait.closed;
          return yielded, if contextDone then Some(ContextEnded) else None;
        }
      }
    }
  }
}
