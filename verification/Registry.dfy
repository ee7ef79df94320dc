/** The registry and its per-agent records as the objects they are, each method proved to be the
    operation of RegistryModel of the same name (internal/registry/registry.go, record.go). */
module Registries {
  import opened Wrappers
  import opened JobIds
  import opened Jobs
  import opened Ticks
  import Model = RegistryModel
  import JobProtocol

  /** One agent's jobs and the counter that numbers them. */
  class Record {
    const agent: AgentId
    var counter: nat
    var jobs: map<JobId, Job>

    /** Every job carries the id it is stored under. */
    ghost predicate Valid()
      reads this
    {
      forall id :: id in jobs ==> jobs[id].id == id
    }

    constructor (agent: AgentId)
      ensures Valid() && this.agent == agent && Abs() == Model.Record(0, map[])
    {
      this.agent := agent;
      counter := 0;
      jobs := map[];
    }

    ghost function Abs(): Model.Record<Job>
      reads this
    {
      Model.Record(counter, jobs)
    }

    /** Starts a job under the next id, or changes nothing when the count is turned away. */
    method Create(count: int) returns (result: Result<JobId, JobProtocol.NewJobError>)
      requires Valid()
      modifies this
      ensures Valid()
      ensures match JobProtocol.Rejection(count, Model.MEAN_TICK_INTERVAL)
              case Some(error) => result == Failure(error) && Abs() == old(Abs())
              case None =>
                && result == Success(MintId(agent, old(counter)))
                && result.value in jobs && fresh(jobs[result.value]) && jobs[result.value].id == result.value
                && jobs[result.value].Count() == count && jobs[result.value].status == Running
                && Abs() == Model.Record(old(counter) + 1, old(jobs)[result.value := jobs[result.value]])
      ensures result.Success? <==> 1 <= count <= 100
      ensures result.Failure? ==> result == Failure(JobProtocol.InvalidCount)
    {
      var id := MintId(agent, counter);
      var rejection := JobProtocol.Rejection(count, Model.MEAN_TICK_INTERVAL);
      if rejection.Some? {
        return Failure(rejection.value);
      }
      var job := new Job(id, count);
      counter := counter + 1;
      jobs := jobs[id := job];
      return Success(id);
    }

    method AllJobs() returns (all: seq<Job>)
      ensures forall id :: id in jobs ==> jobs[id] in all
      ensures forall k :: 0 <= k < |all| ==> all[k] in jobs.Values
    {
      all := [];
      var left := jobs.Keys;
      while left != {}
        invariant left <= jobs.Keys
        invariant forall id :: id in jobs && id !in left ==> jobs[id] in all
        invariant forall k :: 0 <= k < |all| ==> all[k] in jobs.Values
        decreases left
      {
        var id :| id in left;
        all := all + [jobs[id]];
        left := left - {id};
      }
    }
  }

  class Registry {
    var records: map<AgentId, Record>
    var accepting: bool

    /** Every record belongs to the agent it is stored under, so no two agents share a counter. */
    ghost predicate Valid()
      reads this, records.Values
    {
      forall a :: a in records ==> records[a].agent == a && records[a].Valid()
    }

    ghost function Abs(): Model.Registry<Job>
      reads this, records.Values
    {
      Model.Registry(accepting, map a | a in records :: records[a].Abs())
    }

    constructor ()
      ensures Valid() && Abs() == Model.Empty()
    {
      records := map[];
      accepting := true;
    }

    ghost predicate Has(agent: AgentId, id: JobId)
      reads this, records.Values
    {
      agent in records && id in records[agent].jobs
    }

    ghost function JobAt(agent: AgentId, id: JobId): Job
      reads this, records.Values
      requires Has(agent, id)
    {
      records[agent].jobs[id]
    }

    method Create(agent: AgentId, count: int) returns (result: Result<JobId, Model.CreateError>)
      requires Valid()
      modifies this`records, records.Values
      ensures Valid()
      ensures match Model.Refusal(old(Abs()), count)
              case Some(error) => result == Failure(error) && Abs() == old(Abs())
              case None =>
                && result == Success(MintId(agent, Model.RecordOf(old(Abs()), agent).counter))
                && Has(agent, result.value) && fresh(JobAt(agent, result.value))
                && JobAt(agent, result.value).Count() == count && JobAt(agent, result.value).status == Running
                && Abs() == Model.Add(old(Abs()), agent, JobAt(agent, result.value))
      ensures result.Success? <==> old(accepting) && 1 <= count <= 100
      ensures result == Failure(Model.NotAcceptingJobs) <==> !old(accepting)
      ensures result == Failure(Model.JobRejected(JobProtocol.InvalidCount)) <==>
              old(accepting) && !(1 <= count <= 100)
    {
      if !accepting {
        return Failure(Model.NotAcceptingJobs);
      }
      var record, isFound := RecordOf(agent);
      var created := record.Create(count);
      if created.Failure? {
        return Failure(Model.JobRejected(created.error));
      }
      if !isFound {
        records := records[agent := record];
      }
      OneChanged(agent, record);
      return Success(created.value);
    }

    /** The value of a registry in which one agent's record alone has changed. */
    twostate lemma OneChanged(agent: AgentId, new record: Record)
      requires old(Valid()) && records == old(records)[agent := record]
      requires record.agent == agent && record.Valid()
      requires forall a :: a in old(records) && a != agent ==> unchanged(old(records)[a])
      ensures Valid() && Abs() == Model.Registry(accepting, old(Abs()).records[agent := record.Abs()])
    {
      assert Abs().records == old(Abs()).records[agent := record.Abs()];
    }

    /** The agent's record, or a new one that is not stored yet. */
    method RecordOf(agent: AgentId) returns (record: Record, isFound: bool)
      requires Valid()
      ensures isFound == (agent in records) && record.agent == agent
      ensures isFound ==> record == records[agent]
      ensures !isFound ==> fresh(record) && record.Valid() && record.Abs() == Model.Record(0, map[])
    {
      isFound := agent in records;
      if isFound {
        record := records[agent];
      } else {
        record := new Record(agent);
      }
    }

    /** An agent finds its own jobs only, each under its own id. */
    method Find(agent: AgentId, id: JobId) returns (job: Option<Job>)
      requires Valid()
      ensures job == Model.Find(Abs(), agent, id)
      ensures job.Some? ==> job.value.id == id
    {
      if agent !in records {
        return None;
      }
      if id !in records[agent].jobs {
        return None;
      }
      return Some(records[agent].jobs[id]);
    }

    ghost predicate IsRegistered(job: Job)
      reads this, records.Values
    {
      exists a :: a in records && job in records[a].jobs.Values
    }

    /** The part of Shutdown under the lock: no more Creates, and a list of every job there is. */
    method Close() returns (all: seq<Job>)
      requires Valid()
      modifies this`accepting
      ensures Valid() && Abs() == Model.Close(old(Abs()))
      ensures forall a, id :: a in records && id in records[a].jobs ==> records[a].jobs[id] in all
      ensures forall k :: 0 <= k < |all| ==> IsRegistered(all[k])
    {
      accepting := false;
      all := [];
      var left := records.Keys;
      while left != {}
        invariant left <= records.Keys
        invariant forall a, id :: a in records && a !in left && id in records[a].jobs ==> records[a].jobs[id] in all
        invariant forall k :: 0 <= k < |all| ==> IsRegistered(all[k])
        invariant !accepting && Abs().records == old(Abs()).records
        decreases left
      {
        var a :| a in left;
        var some := records[a].AllJobs();
        forall k | 0 <= k < |some| ensures IsRegistered(some[k]) {
          assert a in records && some[k] in records[a].jobs.Values;
        }
        all := all + some;
        left := left - {a};
      }
    }
  }
}
