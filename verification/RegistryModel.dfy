/** The registry as a value, over any kind of job handle, and what every history of calls to it
    guarantees (internal/registry/registry.go, internal/registry/record.go). */
module RegistryModel {
  import opened Wrappers
  import opened JobIds
  import JobProtocol

  datatype Record<J> = Record(counter: nat, jobs: map<JobId, J>)

  datatype Registry<J> = Registry(accepting: bool, records: map<AgentId, Record<J>>)

  datatype CreateError = NotAcceptingJobs | JobRejected(error: JobProtocol.NewJobError)

  const MEAN_TICK_INTERVAL: int := 1_000_000_000

  function Empty<J>(): Registry<J> {
    Registry(true, map[])
  }

  /** Why a Create is turned away, if it is. */
  function Refusal<J>(reg: Registry<J>, count: int): Option<CreateError> {
    if !reg.accepting then Some(NotAcceptingJobs)
    else
      match JobProtocol.Rejection(count, MEAN_TICK_INTERVAL)
      case Some(error) => Some(JobRejected(error))
      case None => None
  }

  function RecordOf<J>(reg: Registry<J>, agent: AgentId): Record<J> {
    if agent in reg.records then reg.records[agent] else Record(0, map[])
  }

  /** Stores a job under the agent's next id. */
  function Add<J>(reg: Registry<J>, agent: AgentId, job: J): Registry<J> {
    var record := RecordOf(reg, agent);
    var id := MintId(agent, record.counter);
    reg.(records := reg.records[agent := Record(record.counter + 1, record.jobs[id := job])])
  }

  /** Create, with the job NewJob would start as a parameter. */
  function Create<J>(reg: Registry<J>, agent: AgentId, count: int, job: J)
    : (Registry<J>, Result<JobId, CreateError>)
  {
    match Refusal(reg, count)
    case Some(error) => (reg, Failure(error))
    case None => (Add(reg, agent, job), Success(MintId(agent, RecordOf(reg, agent).counter)))
  }

  /** A Create succeeds exactly on an open registry and with a count from 1 to 100; a closed registry is
      the first thing it reports, and a failure changes nothing. */
  lemma CreateExact<J>(reg: Registry<J>, agent: AgentId, count: int, job: J)
    ensures Create(reg, agent, count, job).1.Success? <==> reg.accepting && 1 <= count <= 100
    ensures Create(reg, agent, count, job).1 == Failure(NotAcceptingJobs) <==> !reg.accepting
    ensures Create(reg, agent, count, job).1 == Failure(JobRejected(JobProtocol.InvalidCount)) <==>
            reg.accepting && !(1 <= count <= 100)
    ensures Create(reg, agent, count, job).1.Failure? ==> Create(reg, agent, count, job).0 == reg
    ensures Create(reg, agent, count, job).1.Success? ==>
              Find(Create(reg, agent, count, job).0, agent, Create(reg, agent, count, job).1.value) == Some(job)
  {
  }

  function Find<J>(reg: Registry<J>, agent: AgentId, id: JobId): Option<J> {
    if agent !in reg.records then None
    else if id !in reg.records[agent].jobs then None
    else Some(reg.records[agent].jobs[id])
  }

  /** The part of Shutdown that runs under the lock. */
  function Close<J>(reg: Registry<J>): Registry<J> {
    reg.(accepting := false)
  }

  /** The jobs a Shutdown takes hold of under the lock. */
  function JobsOf<J(==)>(reg: Registry<J>): set<J> {
    set agent, id | agent in reg.records && id in reg.records[agent].jobs :: reg.records[agent].jobs[id]
  }

  // Histories.

  datatype Op<J> = CreateOp(agent: AgentId, count: int, job: J) | CloseOp

  /** A successful Create. */
  datatype Minted<J> = Minted(agent: AgentId, id: JobId, job: J)

  function After<J>(reg: Registry<J>, op: Op<J>): Registry<J> {
    match op
    case CreateOp(agent, count, job) => Create(reg, agent, count, job).0
    case CloseOp => Close(reg)
  }

  function Replay<J>(ops: seq<Op<J>>): Registry<J> {
    if ops == [] then Empty()
    else
      var reg := Replay(ops[..|ops| - 1]);
      After(reg, ops[|ops| - 1])
  }

  /** What one operation mints. */
  function MintedBy<J>(reg: Registry<J>, op: Op<J>): seq<Minted<J>> {
    match op
    case CreateOp(agent, count, job) =>
      (match Create(reg, agent, count, job).1
       case Success(id) => [Minted(agent, id, job)]
       case Failure(_) => [])
    case CloseOp => []
  }

  /** The successful Creates of a history, in order. */
  function AllMinted<J>(ops: seq<Op<J>>): seq<Minted<J>> {
    if ops == [] then []
    else AllMinted(ops[..|ops| - 1]) + MintedBy(Replay(ops[..|ops| - 1]), ops[|ops| - 1])
  }

  /** One agent's part of what was minted. */
  function Of<J>(minted: seq<Minted<J>>, agent: AgentId): seq<Minted<J>> {
    if minted == [] then []
    else
      Of(minted[..|minted| - 1], agent) +
      (if minted[|minted| - 1].agent == agent then [minted[|minted| - 1]] else [])
  }

  lemma {:induction false} OfAppend<J>(minted: seq<Minted<J>>, one: Minted<J>, agent: AgentId)
    ensures Of(minted + [one], agent) == Of(minted, agent) + (if one.agent == agent then [one] else [])
  {
    assert (minted + [one])[..|minted|] == minted;
  }

  /** One agent's ids are its own, numbered from zero. */
  ghost predicate Numbered<J>(mine: seq<Minted<J>>, agent: AgentId) {
    forall k :: 0 <= k < |mine| ==> mine[k].agent == agent && mine[k].id == MintId(agent, k)
  }

  /** A map of jobs holds exactly what was minted. */
  ghost predicate Holds<J(!new)>(jobs: map<JobId, J>, mine: seq<Minted<J>>) {
    && (forall k :: 0 <= k < |mine| ==> mine[k].id in jobs && jobs[mine[k].id] == mine[k].job)
    && (forall id :: id in jobs ==> exists k :: 0 <= k < |mine| && mine[k].id == id)
  }

  /** What the registry stores for an agent is what the agent minted. */
  ghost predicate RecordsMatch<J(!new)>(reg: Registry<J>, minted: seq<Minted<J>>, agent: AgentId) {
    var mine := Of(minted, agent);
    && (agent in reg.records <==> mine != [])
    && Numbered(mine, agent)
    && (agent in reg.records ==>
          reg.records[agent].counter == |mine| && Holds(reg.records[agent].jobs, mine))
  }

  lemma MintHolds<J(!new)>(jobs: map<JobId, J>, mine: seq<Minted<J>>, agent: AgentId, job: J)
    requires Numbered(mine, agent) && Holds(jobs, mine)
    ensures var one := Minted(agent, MintId(agent, |mine|), job);
            Numbered(mine + [one], agent) && Holds(jobs[one.id := job], mine + [one])
  {
    var one := Minted(agent, MintId(agent, |mine|), job);
    var now := mine + [one];
    forall k | 0 <= k < |mine| ensures mine[k].id != one.id {
      MintInjective(agent, k, agent, |mine|);
    }
    var after := jobs[one.id := job];
    forall id | id in after ensures exists k :: 0 <= k < |now| && now[k].id == id {
      if id == one.id {
        assert now[|mine|].id == id;
      } else {
        var k :| 0 <= k < |mine| && mine[k].id == id;
        assert now[k].id == id;
      }
    }
  }

  lemma CreateMatches<J(!new)>(
    reg: Registry<J>, minted: seq<Minted<J>>, agent: AgentId, count: int, job: J, other: AgentId)
    requires RecordsMatch(reg, minted, agent) && RecordsMatch(reg, minted, other)
    requires Create(reg, agent, count, job).1.Success?
    ensures RecordsMatch(Create(reg, agent, count, job).0,
                         minted + [Minted(agent, Create(reg, agent, count, job).1.value, job)], other)
  {
    OfAppend(minted, Minted(agent, Create(reg, agent, count, job).1.value, job), other);
    if other == agent {
      var jobs := if agent in reg.records then reg.records[agent].jobs else map[];
      MintHolds(jobs, Of(minted, agent), agent, job);
    }
  }

  /** Ids are minted in order: an agent's successful Creates return agent/0, agent/1, and so on
      without a gap, and the registry holds those jobs under those ids and nothing else. */
  lemma {:induction false} MintedInOrder<J(!new)>(ops: seq<Op<J>>, agent: AgentId)
    ensures RecordsMatch(Replay(ops), AllMinted(ops), agent)
  {
    if ops != [] {
      var before, op := ops[..|ops| - 1], ops[|ops| - 1];
      MintedInOrder(before, agent);
      match op
      case CloseOp =>
        assert AllMinted(ops) == AllMinted(before);
      case CreateOp(creator, count, job) =>
        MintedInOrder(before, creator);
        if Create(Replay(before), creator, count, job).1.Success? {
          CreateMatches(Replay(before), AllMinted(before), creator, count, job, agent);
        } else {
          assert AllMinted(ops) == AllMinted(before);
        }
    }
  }

  lemma {:induction false} OfMember<J>(minted: seq<Minted<J>>, k: nat)
    requires k < |minted|
    ensures exists i :: 0 <= i < |Of(minted, minted[k].agent)| && Of(minted, minted[k].agent)[i] == minted[k]
  {
    var agent, before := minted[k].agent, minted[..|minted| - 1];
    if k == |minted| - 1 {
      assert Of(minted, agent)[|Of(before, agent)|] == minted[k];
    } else {
      OfMember(before, k);
      var i :| 0 <= i < |Of(before, agent)| && Of(before, agent)[i] == before[k];
      assert Of(minted, agent)[i] == minted[k];
    }
  }

  lemma {:induction false} OfFrom<J>(minted: seq<Minted<J>>, agent: AgentId, i: nat)
    requires i < |Of(minted, agent)|
    ensures exists k :: 0 <= k < |minted| && minted[k] == Of(minted, agent)[i]
  {
    var before := minted[..|minted| - 1];
    if i < |Of(before, agent)| {
      OfFrom(before, agent, i);
      var k :| 0 <= k < |before| && before[k] == Of(before, agent)[i];
      assert minted[k] == Of(minted, agent)[i];
    } else {
      assert minted[|minted| - 1] == Of(minted, agent)[i];
    }
  }

  /** An agent finds a job under an id exactly if that agent minted that id for that job. */
  lemma FoundIffMinted<J(!new)>(ops: seq<Op<J>>, agent: AgentId, id: JobId, job: J)
    ensures Find(Replay(ops), agent, id) == Some(job) <==> Minted(agent, id, job) in AllMinted(ops)
  {
    MintedInOrder(ops, agent);
    var reg, minted := Replay(ops), AllMinted(ops);
    var mine := Of(minted, agent);
    if Find(reg, agent, id) == Some(job) {
      var i :| 0 <= i < |mine| && mine[i].id == id;
      OfFrom(minted, agent, i);
    }
    if Minted(agent, id, job) in minted {
      var k :| 0 <= k < |minted| && minted[k] == Minted(agent, id, job);
      OfMember(minted, k);
      var i :| 0 <= i < |mine| && mine[i] == minted[k];
      assert mine[i].id == MintId(agent, i);
    }
  }

  /** Every job that was minted is listed. */
  lemma MintedIsListed<J(!new)>(ops: seq<Op<J>>, k: nat)
    requires k < |AllMinted(ops)|
    ensures AllMinted(ops)[k].job in JobsOf(Replay(ops))
  {
    var one := AllMinted(ops)[k];
    assert Minted(one.agent, one.id, one.job) in AllMinted(ops);
    FoundIffMinted(ops, one.agent, one.id, one.job);
  }

  /** The jobs of a registry are the jobs its history minted. */
  lemma JobsAreMinted<J(!new)>(ops: seq<Op<J>>, job: J)
    ensures job in JobsOf(Replay(ops)) <==> exists k :: 0 <= k < |AllMinted(ops)| && AllMinted(ops)[k].job == job
  {
    var reg, minted := Replay(ops), AllMinted(ops);
    if job in JobsOf(reg) {
      var agent, id :| agent in reg.records && id in reg.records[agent].jobs && reg.records[agent].jobs[id] == job;
      FoundIffMinted(ops, agent, id, job);
      var k :| 0 <= k < |minted| && minted[k] == Minted(agent, id, job);
      assert minted[k].job == job;
    }
    if exists k :: 0 <= k < |minted| && minted[k].job == job {
      var k :| 0 <= k < |minted| && minted[k].job == job;
      MintedIsListed(ops, k);
    }
  }

  /** A new id is not among the old ones. */
  lemma NewIdIsNew<J(!new)>(ops: seq<Op<J>>, op: Op<J>, i: nat)
    requires i < |AllMinted(ops)| && MintedBy(Replay(ops), op) != []
    ensures MintedBy(Replay(ops), op)[0].id != AllMinted(ops)[i].id
  {
    var minted := AllMinted(ops);
    var earlier := minted[i];
    MintedInOrder(ops, op.agent);
    MintedInOrder(ops, earlier.agent);
    OfMember(minted, i);
    var k :| 0 <= k < |Of(minted, earlier.agent)| && Of(minted, earlier.agent)[k] == earlier;
    MintInjective(earlier.agent, k, op.agent, |Of(minted, op.agent)|);
  }

  /** No id is ever minted twice. */
  lemma {:induction false} IdsAreUnique<J(!new)>(ops: seq<Op<J>>, i: nat, j: nat)
    requires i < j < |AllMinted(ops)|
    ensures AllMinted(ops)[i].id != AllMinted(ops)[j].id
  {
    var before, op := ops[..|ops| - 1], ops[|ops| - 1];
    if j < |AllMinted(before)| {
      IdsAreUnique(before, i, j);
    } else {
      NewIdIsNew(before, op, i);
    }
  }

  lemma {:induction false} ReplayAppend<J>(ops: seq<Op<J>>, op: Op<J>)
    ensures Replay(ops + [op]) == After(Replay(ops), op)
    ensures AllMinted(ops + [op]) == AllMinted(ops) + MintedBy(Replay(ops), op)
  {
    assert (ops + [op])[..|ops|] == ops;
  }

  lemma LastApart<T>(p: seq<T>, q: seq<T>)
    requires q != []
    ensures p + q == (p + q[..|q| - 1]) + [q[|q| - 1]]
  {
  }

  lemma SameOwner<J(!new)>(ops: seq<Op<J>>, a: AgentId, b: AgentId, id: JobId)
    requires Find(Replay(ops), a, id).Some? && Find(Replay(ops), b, id).Some?
    ensures a == b
  {
    MintedInOrder(ops, a);
    MintedInOrder(ops, b);
    var i :| 0 <= i < |Of(AllMinted(ops), a)| && Of(AllMinted(ops), a)[i].id == id;
    var j :| 0 <= j < |Of(AllMinted(ops), b)| && Of(AllMinted(ops), b)[j].id == id;
    MintInjective(a, i, b, j);
  }

  lemma {:induction false} MintedGrows<J>(before: seq<Op<J>>, after: seq<Op<J>>)
    ensures AllMinted(before) <= AllMinted(before + after)
    decreases |after|
  {
    if after == [] {
      assert before + after == before;
    } else {
      var init := after[..|after| - 1];
      MintedGrows(before, init);
      LastApart(before, after);
      ReplayAppend(before + init, after[|after| - 1]);
    }
  }

  /** What an agent finds it finds for good. */
  lemma FindPersists<J(!new)>(before: seq<Op<J>>, after: seq<Op<J>>, agent: AgentId, id: JobId)
    requires Find(Replay(before), agent, id).Some?
    ensures Find(Replay(before + after), agent, id) == Find(Replay(before), agent, id)
  {
    var job := Find(Replay(before), agent, id).value;
    FoundIffMinted(before, agent, id, job);
    MintedGrows(before, after);
    FoundIffMinted(before + after, agent, id, job);
  }

  /** At most one agent can ever find a given id: whoever finds it later is the agent that found it
      before, and finds the same job. */
  lemma OneOwner<J(!new)>(before: seq<Op<J>>, after: seq<Op<J>>, a: AgentId, b: AgentId, id: JobId)
    requires Find(Replay(before), a, id).Some? && Find(Replay(before + after), b, id).Some?
    ensures a == b
    ensures Find(Replay(before + after), b, id) == Find(Replay(before), a, id)
  {
    FindPersists(before, after, a, id);
    SameOwner(before + after, a, b, id);
  }

  /** Two histories that led to the same registry go on in the same way. */
  lemma {:induction false} SameFuture<J>(p: seq<Op<J>>, q: seq<Op<J>>, after: seq<Op<J>>)
    requires Replay(p) == Replay(q) && AllMinted(p) == AllMinted(q)
    ensures Replay(p + after) == Replay(q + after)
    ensures AllMinted(p + after) == AllMinted(q + after)
    decreases |after|
  {
    if after == [] {
      assert p + after == p && q + after == q;
    } else {
      var init, last := after[..|after| - 1], after[|after| - 1];
      SameFuture(p, q, init);
      LastApart(p, after);
      LastApart(q, after);
      ReplayAppend(p + init, last);
      ReplayAppend(q + init, last);
    }
  }

  /** A Create that fails consumes nothing: every later call goes as if it had never been made. */
  lemma FailureLeavesNoTrace<J>(before: seq<Op<J>>, failed: Op<J>, after: seq<Op<J>>)
    requires failed.CreateOp?
    requires Create(Replay(before), failed.agent, failed.count, failed.job).1.Failure?
    ensures Replay(before + [failed] + after) == Replay(before + after)
    ensures AllMinted(before + [failed] + after) == AllMinted(before + after)
  {
    ReplayAppend(before, failed);
    SameFuture(before + [failed], before, after);
  }

  /** One more operation changes nothing about a closed registry. */
  lemma ClosedStays<J>(ops: seq<Op<J>>, op: Op<J>)
    requires !Replay(ops).accepting
    ensures Replay(ops + [op]) == Replay(ops) && AllMinted(ops + [op]) == AllMinted(ops)
  {
    ReplayAppend(ops, op);
  }

  lemma {:induction false} CloseCloses<J>(ops: seq<Op<J>>)
    requires CloseOp in ops
    ensures !Replay(ops).accepting
  {
    var before, last := ops[..|ops| - 1], ops[|ops| - 1];
    if CloseOp in before {
      CloseCloses(before);
    } else {
      assert last == CloseOp;
    }
  }

  lemma {:induction false} StaysClosed<J>(before: seq<Op<J>>, after: seq<Op<J>>)
    requires !Replay(before).accepting
    ensures Replay(before + after) == Replay(before) && AllMinted(before + after) == AllMinted(before)
    decreases |after|
  {
    if after == [] {
      assert before + after == before;
    } else {
      StaysClosed(before, after[..|after| - 1]);
      ClosedStays(before + after[..|after| - 1], after[|after| - 1]);
      LastApart(before, after);
    }
  }

  /** After a Close nothing is minted, ever. */
  lemma ClosedForGood<J>(before: seq<Op<J>>, after: seq<Op<J>>)
    requires CloseOp in before
    ensures !Replay(before + after).accepting
    ensures AllMinted(before + after) == AllMinted(before)
    ensures Replay(before + after) == Replay(before)
  {
    CloseCloses(before);
    StaysClosed(before, after);
  }
}
