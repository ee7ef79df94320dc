/** What the mutex of a job guards, and the sections that run under it
    (internal/worker/job.go). A channel is a generation number, closed or open. */
module JobState {
  import opened Ticks

  /** made is the next unused channel; fault records a close of a closed channel, which panics in Go. */
  datatype Shared = Shared(
    status: Status, ticks: seq<Tick>, changed: nat, made: nat, closed: set<nat>, fault: bool)
  {
    function CloseChanged(): Shared {
      this.(closed := closed + {changed}, fault := fault || changed in closed)
    }

    function RenewChanged(): Shared {
      this.(changed := made, made := made + 1)
    }

    /** reportProgress: no tick is emitted once the job has finished. */
    function ReportProgress(tick: Tick): Shared {
      if status == Running then
        this.(ticks := ticks + [tick]).CloseChanged().RenewChanged()
      else
        this
    }

    /** setTerminal: the compare-and-set out of RUNNING and the sentinel append, as one unit. */
    function SetTerminal(terminal: Status, last: Tick): (Shared, bool) {
      if status != Running then
        (this, false)
      else
        (this.(status := terminal, ticks := ticks + [last]).CloseChanged(), true)
    }
  }

  const FRESH: Shared := Shared(Running, [], 0, 1, {}, false)

  /** The number of ticks before the sentinel. */
  function Body(sh: Shared): int {
    if sh.status == Running then |sh.ticks| else |sh.ticks| - 1
  }

  /** The shape of the buffer of a job that counts down from count. */
  ghost predicate BufferInv(count: int, sh: Shared) {
    && (sh.status == Running ==> |sh.ticks| <= count)
    && (sh.status != Running ==>
          && 1 <= |sh.ticks| <= count + 1
          && Announces(sh.ticks[|sh.ticks| - 1], sh.status))
    && (sh.status == Completed ==> |sh.ticks| == count + 1)
    && (forall i :: 0 <= i < Body(sh) ==>
          sh.ticks[i].Progress? && sh.ticks[i].remaining == count - i)
  }

  /** The shape of the channels: one per tick, and all but the current one of a running job closed. */
  ghost predicate ChannelInv(sh: Shared) {
    && !sh.fault
    && sh.made == sh.changed + 1
    && sh.changed == Body(sh)
    && (forall g: nat :: g in sh.closed <==> g < |sh.ticks|)
  }

  ghost predicate SharedInv(count: int, sh: Shared) {
    BufferInv(count, sh) && ChannelInv(sh)
  }

  function Below(n: nat): (below: set<nat>)
    ensures forall g: nat :: g in below <==> g < n
  {
    if n == 0 then {} else Below(n - 1) + {n - 1}
  }

  /** The shared state that a status and a buffer stand for. */
  function Standing(status: Status, ticks: seq<Tick>): Shared {
    var body := if status == Running || ticks == [] then |ticks| else |ticks| - 1;
    Shared(status, ticks, body, body + 1, Below(|ticks|), false)
  }

  /** The status and the buffer settle everything else the mutex guards. */
  lemma StatusAndTicksSettle(count: int, sh: Shared)
    requires SharedInv(count, sh)
    ensures sh == Standing(sh.status, sh.ticks)
  {
    assert sh.closed == Below(|sh.ticks|);
  }

  /** How the shared state may evolve: ticks are only appended, and nothing follows a terminal status. */
  ghost predicate Extends(before: Shared, after: Shared) {
    && before.ticks <= after.ticks
    && (before.status != Running ==> after == before)
  }

  /** The tick a countdown from count has reached. */
  ghost predicate MayReport(count: int, sh: Shared, tick: Tick) {
    sh.status == Running ==> |sh.ticks| < count && tick.Progress? && tick.remaining == count - |sh.ticks|
  }

  /** A sentinel of the right kind, and COMPLETED only from a whole countdown. */
  ghost predicate MayFinish(count: int, sh: Shared, terminal: Status, last: Tick) {
    && Announces(last, terminal)
    && (sh.status == Running && terminal == Completed ==> |sh.ticks| == count)
  }

  lemma ReportProgressKeeps(count: int, sh: Shared, tick: Tick)
    requires SharedInv(count, sh)
    requires MayReport(count, sh, tick)
    ensures SharedInv(count, sh.ReportProgress(tick))
    ensures Extends(sh, sh.ReportProgress(tick))
  {
  }

  lemma SetTerminalKeeps(count: int, sh: Shared, terminal: Status, last: Tick)
    requires SharedInv(count, sh)
    requires MayFinish(count, sh, terminal, last)
    ensures SharedInv(count, sh.SetTerminal(terminal, last).0)
    ensures Extends(sh, sh.SetTerminal(terminal, last).0)
    ensures sh.SetTerminal(terminal, last).0.status != Running
  {
  }

  /** Only the last tick of a finished job is terminal. */
  lemma SentinelIsLast(count: int, sh: Shared, i: nat)
    requires BufferInv(count, sh)
    requires i < |sh.ticks|
    ensures sh.ticks[i].IsTerminal() <==> sh.status != Running && i == |sh.ticks| - 1
  {
  }
}
