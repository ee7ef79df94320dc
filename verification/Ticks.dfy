/** Ticks, statuses and the reference countdown (internal/worker/tick.go, status.go). */
module Ticks {

  /** Why a job's context ended: an explicit cancel or a deadline. */
  datatype Cause = Canceled | DeadlineExceeded

  datatype Status = Running | Completed | Stopped | Failed

  /** A tick. Elapsed is a duration in nanoseconds. */
  datatype Tick =
    | Progress(elapsed: int, remaining: int)
    | StoppedTick(cause: Cause)
    | PanicError(message: string)
  {
    predicate IsTerminal() {
      match this
      case Progress(_, remaining) => remaining == 0
      case StoppedTick(_) => true
      case PanicError(_) => true
    }
  }

  const MAX_COUNT: int := 100

  /** The kind of sentinel each terminal status is announced with. */
  predicate Announces(tick: Tick, status: Status) {
    match status
    case Running => false
    case Completed => tick.Progress? && tick.remaining == 0
    case Stopped => tick.StoppedTick?
    case Failed => tick.PanicError?
  }

  /** The reference: the remaining counts a job is meant to announce before its sentinel. */
  function Countdown(count: int): seq<int> {
    if count <= 0 then [] else [count] + Countdown(count - 1)
  }

  function Remaining(tick: Tick): int {
    if tick.Progress? then tick.remaining else -1
  }

  function RemainingOf(ticks: seq<Tick>): seq<int> {
    seq(|ticks|, i requires 0 <= i < |ticks| => Remaining(ticks[i]))
  }

  lemma {:induction false} CountdownAt(count: int, k: nat)
    requires k < count
    ensures |Countdown(count)| == count
    ensures Countdown(count)[k] == count - k
  {
    if count == 1 {
    } else if k == 0 {
      CountdownAt(count - 1, 0);
    } else {
      CountdownAt(count - 1, k - 1);
    }
  }
}
