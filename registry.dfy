/** The job registry: a collection that the dispatcher queries and appends to. */
module Registry {
  import opened Records

  class JobRegistry {
    /** The stored jobs, in insertion order. */
    var jobs: seq<Job>

    constructor (initial: seq<Job>)
      ensures jobs == initial
    {
      jobs := initial;
    }

    /** The dedup query over the stored jobs. */
    function JobsBetween(contractId: string, from: int, to: int): seq<Job>
      reads this
    {
      JobsForContractBetween(jobs, contractId, from, to)
    }

    /** Inserts `job` unless the write fails; a failed write stores nothing. */
    method Insert(job: Job, fails: bool) returns (ok: bool)
      modifies this
      ensures ok == !fails
      ensures jobs == if ok then old(jobs) + [job] else old(jobs)
    {
      ok := !fails;
      if ok {
        jobs := jobs + [job];
      }
    }
  }
}
