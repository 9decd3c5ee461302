/** The dispatch cycle `checkWeatherAndCreateJobs`: for every reading with
    positive snowfall, query the matching contracts; for every one of them,
    query today's jobs and insert a pending job only when there is none; tally
    the outcomes.

    The registry calls are answered by a `Backend`: the n-th call of a cycle
    (a contracts query, a jobs query or an insert, in the order the cycle makes
    them) throws when `fails(n)`; `clock(n)` is the client's clock read just
    before the jobs query numbered n, and `serverClock(n)` the server timestamp
    stored by the insert numbered n. */
module Dispatch {
  import opened Results
  import opened Time
  import opened Weather
  import opened Records
  import opened Registry

  /** Why a cycle threw: the weather fetch, or a registry query, failed. */
  datatype CycleError = WeatherUnavailable(cause: FetchError) | QueryFailed

  datatype Tally = Tally(created: nat, skipped: nat, errors: nat)

  /** The number of contract visits a tally accounts for. */
  function Visits(t: Tally): nat
  {
    t.created + t.skipped + t.errors
  }

  datatype Backend = Backend(fails: nat -> bool, clock: nat -> int, serverClock: nat -> int)

  /** The state of a cycle between two contract visits: the registry's jobs,
      the tally so far and the number of registry calls made. */
  datatype Run = Run(jobs: seq<Job>, tally: Tally, calls: nat)

  /** A cycle either goes on, or has thrown, leaving the jobs it already inserted. */
  datatype Step = Continue(run: Run) | Abort(err: CycleError, jobs: seq<Job>)

  function JobsAfter(s: Step): seq<Job>
  {
    match s
    case Continue(r) => r.jobs
    case Abort(_, js) => js
  }

  /** What the caller sees: the tally, or the error the cycle threw. */
  function Reported(s: Step): Result<Tally, CycleError>
  {
    match s
    case Continue(r) => Success(r.tally)
    case Abort(e, _) => Failure(e)
  }

  /** One contract of the inner loop: the dedup query, then a skip, an insert or an insert error. */
  function VisitContract(c: Contract, r: Reading, st: Run, b: Backend): Step
  {
    var q := st.calls;
    if b.fails(q) then Abort(QueryFailed, st.jobs)
    else
      var today := DayStart(b.clock(q));
      if |JobsForContractBetween(st.jobs, c.id, today, today + DAY_MS)| > 0 then
        Continue(Run(st.jobs, st.tally.(skipped := st.tally.skipped + 1), q + 1))
      else if b.fails(q + 1) then
        Continue(Run(st.jobs, st.tally.(errors := st.tally.errors + 1), q + 2))
      else
        Continue(Run(st.jobs + [NewJob(c, r.snowfall, today, b.serverClock(q + 1))],
                     st.tally.(created := st.tally.created + 1), q + 2))
  }

  /** The inner loop from the `j`-th matched contract on. */
  function VisitContracts(cs: seq<Contract>, j: nat, r: Reading, st: Run, b: Backend): Step
    requires j <= |cs|
    decreases |cs| - j
  {
    if j == |cs| then Continue(st)
    else
      match VisitContract(cs[j], r, st, b)
      case Abort(e, js) => Abort(e, js)
      case Continue(st') => VisitContracts(cs, j + 1, r, st', b)
  }

  /** One reading of the outer loop. */
  function VisitReading(r: Reading, contracts: seq<Contract>, st: Run, b: Backend): Step
  {
    if r.snowfall <= 0 then Continue(st)
    else if b.fails(st.calls) then Abort(QueryFailed, st.jobs)
    else VisitContracts(FindContracts(contracts, r.city, r.snowfall), 0, r, st.(calls := st.calls + 1), b)
  }

  /** The outer loop from the `i`-th reading on. */
  function VisitReadings(rs: seq<Reading>, i: nat, contracts: seq<Contract>, st: Run, b: Backend): Step
    requires i <= |rs|
    decreases |rs| - i
  {
    if i == |rs| then Continue(st)
    else
      match VisitReading(rs[i], contracts, st, b)
      case Abort(e, js) => Abort(e, js)
      case Continue(st') => VisitReadings(rs, i + 1, contracts, st', b)
  }

  /** Goes on with the readings from the `i`-th after a step, unless it threw. */
  function Resume(s: Step, rs: seq<Reading>, i: nat, contracts: seq<Contract>, b: Backend): Step
    requires i <= |rs|
  {
    match s
    case Abort(e, js) => Abort(e, js)
    case Continue(st) => VisitReadings(rs, i, contracts, st, b)
  }

  /** A whole cycle over the fetched readings, starting from the stored jobs and a zero tally. */
  function Cycle(fetched: Result<seq<Reading>, FetchError>, contracts: seq<Contract>, jobs: seq<Job>, b: Backend): Step
  {
    match fetched
    case Failure(e) => Abort(WeatherUnavailable(e), jobs)
    case Success(rs) => VisitReadings(rs, 0, contracts, Run(jobs, Tally(0, 0, 0), 0), b)
  }

  /** The inner loop's body for one matched contract: the dedup query for
      today's window, then the insert when it found nothing. `thrown` says that
      the query threw, which ends the cycle. */
  method DispatchContract(contract: Contract, cityWeather: Reading, registry: JobRegistry, b: Backend,
                          results: Tally, calls: nat)
    returns (thrown: bool, results': Tally, calls': nat)
    modifies registry
    ensures VisitContract(contract, cityWeather, Run(old(registry.jobs), results, calls), b)
         == if thrown then Abort(QueryFailed, registry.jobs) else Continue(Run(registry.jobs, results', calls'))
  {
    if b.fails(calls) {
      return true, results, calls;
    }
    var today := DayStart(b.clock(calls));
    var tomorrow := today + DAY_MS;
    var existingJobs := registry.JobsBetween(contract.id, today, tomorrow);
    thrown, calls' := false, calls + 1;
    if |existingJobs| == 0 {
      var job := NewJob(contract, cityWeather.snowfall, today, b.serverClock(calls'));
      var ok := registry.Insert(job, b.fails(calls'));
      calls' := calls' + 1;
      if ok {
        results' := results.(created := results.created + 1);
      } else {
        results' := results.(errors := results.errors + 1);
      }
    } else {
      results' := results.(skipped := results.skipped + 1);
    }
  }

  /** `checkWeatherAndCreateJobs`, with the fetched readings, the contract
      registry and the backend's answers as inputs. */
  method CheckWeatherAndCreateJobs(fetched: Result<seq<Reading>, FetchError>, contracts: seq<Contract>,
                                   registry: JobRegistry, b: Backend)
    returns (res: Result<Tally, CycleError>)
    modifies registry
    ensures res == Reported(Cycle(fetched, contracts, old(registry.jobs), b))
    ensures registry.jobs == JobsAfter(Cycle(fetched, contracts, old(registry.jobs), b))
  {
    ghost var spec := Cycle(fetched, contracts, registry.jobs, b);
    if fetched.Failure? {
      return Failure(WeatherUnavailable(fetched.error));
    }
    var weatherData := fetched.value;
    var results := Tally(0, 0, 0);
    var calls: nat := 0;
    for i := 0 to |weatherData|
      invariant VisitReadings(weatherData, i, contracts, Run(registry.jobs, results, calls), b) == spec
    {
      var cityWeather := weatherData[i];
      ghost var start := Run(registry.jobs, results, calls);
      assert VisitReadings(weatherData, i, contracts, start, b)
          == Resume(VisitReading(cityWeather, contracts, start, b), weatherData, i + 1, contracts, b);
      if cityWeather.snowfall > 0 {
        if b.fails(calls) {
          return Failure(QueryFailed);
        }
        var matched := FindContracts(contracts, cityWeather.city, cityWeather.snowfall);
        calls := calls + 1;
        for j := 0 to |matched|
          invariant Resume(VisitContracts(matched, j, cityWeather, Run(registry.jobs, results, calls), b),
                           weatherData, i + 1, contracts, b) == spec
        {
          var thrown;
          thrown, results, calls := DispatchContract(matched[j], cityWeather, registry, b, results, calls);
          if thrown {
            return Failure(QueryFailed);
          }
        }
      }
    }
    return Success(results);
  }
}
