/** What a dispatch cycle guarantees: the accounting of its tally, the shape of
    the jobs it inserts, at most one job per contract and day across
    sequential cycles, and that rerunning it on the same day creates nothing. */
module DispatchProperties {
  import opened Results
  import opened Time
  import opened Weather
  import opened Records
  import opened Dispatch

  // ----- Accounting -----

  /** The number of contract visits the readings from the `i`-th on call for:
      the matched contracts of every reading with positive snowfall. */
  function Demand(rs: seq<Reading>, i: nat, contracts: seq<Contract>): nat
    requires i <= |rs|
    decreases |rs| - i
  {
    if i == |rs| then 0
    else
      var here := if rs[i].snowfall > 0 then |FindContracts(contracts, rs[i].city, rs[i].snowfall)| else 0;
      here + Demand(rs, i + 1, contracts)
  }

  /** From `before` to `after`, the stored jobs are kept as a prefix, no counter
      goes down, and exactly as many jobs were added as `created` went up. */
  predicate Grows(before: Run, after: Step)
  {
    var js := JobsAfter(after);
    && before.jobs <= js
    && (after.Continue? ==>
          var t := after.run.tally;
          && before.tally.created <= t.created && before.tally.skipped <= t.skipped
          && before.tally.errors <= t.errors && before.calls <= after.run.calls
          && |js| == |before.jobs| + (t.created - before.tally.created))
  }

  lemma VisitContractGrows(c: Contract, r: Reading, st: Run, b: Backend)
    ensures Grows(st, VisitContract(c, r, st, b))
    ensures VisitContract(c, r, st, b).Continue? ==> Visits(VisitContract(c, r, st, b).run.tally) == Visits(st.tally) + 1
  {
  }

  lemma {:induction false} VisitContractsGrow(cs: seq<Contract>, j: nat, r: Reading, st: Run, b: Backend)
    requires j <= |cs|
    ensures Grows(st, VisitContracts(cs, j, r, st, b))
    ensures VisitContracts(cs, j, r, st, b).Continue? ==>
      Visits(VisitContracts(cs, j, r, st, b).run.tally) == Visits(st.tally) + (|cs| - j)
    decreases |cs| - j
  {
    if j < |cs| {
      VisitContractGrows(cs[j], r, st, b);
      match VisitContract(cs[j], r, st, b)
      case Abort(_, _) =>
      case Continue(st') => VisitContractsGrow(cs, j + 1, r, st', b);
    }
  }

  lemma VisitReadingGrows(r: Reading, contracts: seq<Contract>, st: Run, b: Backend)
    ensures Grows(st, VisitReading(r, contracts, st, b))
    ensures VisitReading(r, contracts, st, b).Continue? ==>
      Visits(VisitReading(r, contracts, st, b).run.tally)
        == Visits(st.tally) + (if r.snowfall > 0 then |FindContracts(contracts, r.city, r.snowfall)| else 0)
  {
    if r.snowfall > 0 && !b.fails(st.calls) {
      VisitContractsGrow(FindContracts(contracts, r.city, r.snowfall), 0, r, st.(calls := st.calls + 1), b);
    }
  }

  lemma {:induction false} VisitReadingsGrow(rs: seq<Reading>, i: nat, contracts: seq<Contract>, st: Run, b: Backend)
    requires i <= |rs|
    ensures Grows(st, VisitReadings(rs, i, contracts, st, b))
    ensures VisitReadings(rs, i, contracts, st, b).Continue? ==>
      Visits(VisitReadings(rs, i, contracts, st, b).run.tally) == Visits(st.tally) + Demand(rs, i, contracts)
    decreases |rs| - i
  {
    if i < |rs| {
      VisitReadingGrows(rs[i], contracts, st, b);
      match VisitReading(rs[i], contracts, st, b)
      case Abort(_, _) =>
      case Continue(st') => VisitReadingsGrow(rs, i + 1, contracts, st', b);
    }
  }

  /** A job the dispatcher may have inserted for reading `r`: the pending record
      built from a contract the contracts query matched for that reading's city
      and positive snowfall, with a midnight for `today`. */
  ghost predicate AutoJobFor(j: Job, r: Reading, contracts: seq<Contract>)
  {
    exists c, today :: 0 < r.snowfall && j.snowfall == r.snowfall && c in FindContracts(contracts, r.city, r.snowfall)
      && today % DAY_MS == 0 && j == NewJob(c, r.snowfall, today, j.createdAt)
  }

  /** A job the dispatcher may have inserted for one of the fetched readings. */
  ghost predicate AutoJob(j: Job, rs: seq<Reading>, contracts: seq<Contract>)
  {
    exists k :: 0 <= k < |rs| && AutoJobFor(j, rs[k], contracts)
  }

  /** Every job of `after` beyond the length of `before` was inserted for reading `r`. */
  ghost predicate AddsAutoJobsFor(before: seq<Job>, after: seq<Job>, r: Reading, contracts: seq<Contract>)
  {
    forall k :: |before| <= k < |after| ==> AutoJobFor(after[k], r, contracts)
  }

  /** Every job of `after` beyond the length of `before` was inserted for a fetched reading. */
  ghost predicate AddsAutoJobs(before: seq<Job>, after: seq<Job>, rs: seq<Reading>, contracts: seq<Contract>)
  {
    forall k :: |before| <= k < |after| ==> AutoJob(after[k], rs, contracts)
  }

  lemma AddsAutoJobsForTrans(a: seq<Job>, b: seq<Job>, c: seq<Job>, r: Reading, contracts: seq<Contract>)
    requires a <= b <= c && AddsAutoJobsFor(a, b, r, contracts) && AddsAutoJobsFor(b, c, r, contracts)
    ensures AddsAutoJobsFor(a, c, r, contracts)
  {
    forall k | |a| <= k < |c| ensures AutoJobFor(c[k], r, contracts) {
      if k < |b| {
        assert c[k] == b[k];
      }
    }
  }

  lemma AddsAutoJobsTrans(a: seq<Job>, b: seq<Job>, c: seq<Job>, rs: seq<Reading>, contracts: seq<Contract>)
    requires a <= b <= c && AddsAutoJobs(a, b, rs, contracts) && AddsAutoJobs(b, c, rs, contracts)
    ensures AddsAutoJobs(a, c, rs, contracts)
  {
    forall k | |a| <= k < |c| ensures AutoJob(c[k], rs, contracts) {
      if k < |b| {
        assert c[k] == b[k];
      }
    }
  }

  /** Jobs inserted for the `i`-th reading were inserted for a fetched reading. */
  lemma AddsAutoJobsForReading(before: seq<Job>, after: seq<Job>, rs: seq<Reading>, i: nat, contracts: seq<Contract>)
    requires i < |rs| && AddsAutoJobsFor(before, after, rs[i], contracts)
    ensures AddsAutoJobs(before, after, rs, contracts)
  {
    forall k | |before| <= k < |after| ensures AutoJob(after[k], rs, contracts) {
      assert AutoJobFor(after[k], rs[i], contracts);
    }
  }

  /** A matched contract is a registered one whose threshold the snowfall reached. */
  lemma FoundContract(contracts: seq<Contract>, r: Reading, c: Contract)
    requires c in FindContracts(contracts, r.city, r.snowfall)
    ensures c in contracts && c.city == r.city && c.snowThreshold <= r.snowfall
  {
    var found := FindContracts(contracts, r.city, r.snowfall);
    assert multiset(found)[c] > 0;
  }

  lemma VisitContractAddsAutoJob(c: Contract, r: Reading, st: Run, b: Backend, contracts: seq<Contract>)
    requires 0 < r.snowfall && c in FindContracts(contracts, r.city, r.snowfall)
    ensures AddsAutoJobsFor(st.jobs, JobsAfter(VisitContract(c, r, st, b)), r, contracts)
  {
    var q := st.calls;
    if !b.fails(q) {
      var today := DayStart(b.clock(q));
      var j := NewJob(c, r.snowfall, today, b.serverClock(q + 1));
      assert AutoJobFor(j, r, contracts) by {
        assert 0 < r.snowfall && j.snowfall == r.snowfall && c in FindContracts(contracts, r.city, r.snowfall);
        assert today % DAY_MS == 0 && j == NewJob(c, r.snowfall, today, j.createdAt);
      }
    }
  }

  lemma {:induction false} VisitContractsAddAutoJobs(cs: seq<Contract>, j: nat, r: Reading, st: Run, b: Backend,
                                                     contracts: seq<Contract>)
    requires j <= |cs| && 0 < r.snowfall
    requires forall c :: c in cs ==> c in FindContracts(contracts, r.city, r.snowfall)
    ensures AddsAutoJobsFor(st.jobs, JobsAfter(VisitContracts(cs, j, r, st, b)), r, contracts)
    decreases |cs| - j
  {
    if j < |cs| {
      VisitContractAddsAutoJob(cs[j], r, st, b, contracts);
      match VisitContract(cs[j], r, st, b)
      case Abort(_, _) =>
      case Continue(st') =>
        VisitContractGrows(cs[j], r, st, b);
        VisitContractsGrow(cs, j + 1, r, st', b);
        VisitContractsAddAutoJobs(cs, j + 1, r, st', b, contracts);
        AddsAutoJobsForTrans(st.jobs, st'.jobs, JobsAfter(VisitContracts(cs, j + 1, r, st', b)), r, contracts);
    }
  }

  lemma VisitReadingAddsAutoJobs(r: Reading, contracts: seq<Contract>, st: Run, b: Backend)
    ensures AddsAutoJobsFor(st.jobs, JobsAfter(VisitReading(r, contracts, st, b)), r, contracts)
  {
    if r.snowfall > 0 && !b.fails(st.calls) {
      var found := FindContracts(contracts, r.city, r.snowfall);
      var st1 := st.(calls := st.calls + 1);
      assert VisitReading(r, contracts, st, b) == VisitContracts(found, 0, r, st1, b);
      VisitContractsAddAutoJobs(found, 0, r, st1, b, contracts);
    } else {
      assert JobsAfter(VisitReading(r, contracts, st, b)) == st.jobs;
    }
  }

  lemma {:induction false} VisitReadingsAddAutoJobs(rs: seq<Reading>, i: nat, contracts: seq<Contract>, st: Run, b: Backend)
    requires i <= |rs|
    ensures AddsAutoJobs(st.jobs, JobsAfter(VisitReadings(rs, i, contracts, st, b)), rs, contracts)
    decreases |rs| - i
  {
    if i < |rs| {
      VisitReadingAddsAutoJobs(rs[i], contracts, st, b);
      AddsAutoJobsForReading(st.jobs, JobsAfter(VisitReading(rs[i], contracts, st, b)), rs, i, contracts);
      VisitReadingGrows(rs[i], contracts, st, b);
      match VisitReading(rs[i], contracts, st, b)
      case Abort(_, _) =>
      case Continue(st') =>
        VisitReadingsGrow(rs, i + 1, contracts, st', b);
        VisitReadingsAddAutoJobs(rs, i + 1, contracts, st', b);
        AddsAutoJobsTrans(st.jobs, st'.jobs, JobsAfter(VisitReadings(rs, i + 1, contracts, st', b)), rs, contracts);
    }
  }

  lemma CycleGrows(rs: seq<Reading>, contracts: seq<Contract>, jobs: seq<Job>, b: Backend)
    ensures Grows(Run(jobs, Tally(0, 0, 0), 0), Cycle(Success(rs), contracts, jobs, b))
    ensures Cycle(Success(rs), contracts, jobs, b).Continue? ==>
      Visits(Cycle(Success(rs), contracts, jobs, b).run.tally) == Demand(rs, 0, contracts)
  {
    VisitReadingsGrow(rs, 0, contracts, Run(jobs, Tally(0, 0, 0), 0), b);
  }

  lemma CycleAddsAutoJobs(rs: seq<Reading>, contracts: seq<Contract>, jobs: seq<Job>, b: Backend)
    ensures AddsAutoJobs(jobs, JobsAfter(Cycle(Success(rs), contracts, jobs, b)), rs, contracts)
  {
    VisitReadingsAddAutoJobs(rs, 0, contracts, Run(jobs, Tally(0, 0, 0), 0), b);
  }

  /** A cycle keeps every stored job unchanged and only appends pending jobs,
      each built for a fetched reading with positive snowfall from a contract
      the contracts query matched for that reading; a failed weather fetch
      writes nothing; a completed cycle starts its tally at zero, counts as many
      visits (`created + skipped + errors`) as there are matched contracts of
      positive readings, and adds exactly `created` jobs. */
  lemma CycleAccounting(fetched: Result<seq<Reading>, FetchError>, contracts: seq<Contract>, jobs: seq<Job>, b: Backend)
    ensures jobs <= JobsAfter(Cycle(fetched, contracts, jobs, b))
    ensures fetched.Success? ==> AddsAutoJobs(jobs, JobsAfter(Cycle(fetched, contracts, jobs, b)), fetched.value, contracts)
    ensures fetched.Failure? ==> Cycle(fetched, contracts, jobs, b) == Abort(WeatherUnavailable(fetched.error), jobs)
    ensures Cycle(fetched, contracts, jobs, b).Continue? ==>
      var run := Cycle(fetched, contracts, jobs, b).run;
      && fetched.Success?
      && Visits(run.tally) == Demand(fetched.value, 0, contracts)
      && |run.jobs| == |jobs| + run.tally.created
  {
    match fetched
    case Failure(e) =>
      assert Cycle(fetched, contracts, jobs, b) == Abort(WeatherUnavailable(e), jobs);
    case Success(rs) =>
      CycleGrows(rs, contracts, jobs, b);
      CycleAddsAutoJobs(rs, contracts, jobs, b);
  }

  // ----- One contract -----

  /** One visit in terms of the day bucket: a query failure throws; a job of the
      contract already created on the visit's day means a skip with the jobs
      unchanged; otherwise one new pending job is appended, or on an insert
      failure the error is counted and the jobs are unchanged. */
  lemma VisitContractOutcome(c: Contract, r: Reading, st: Run, b: Backend)
    ensures var q := st.calls;
      var day := DayStart(b.clock(q));
      var out := VisitContract(c, r, st, b);
      && (out.Abort? <==> b.fails(q))
      && (out.Abort? ==> out.jobs == st.jobs)
      && (!b.fails(q) && HasJobOn(st.jobs, c.id, day) ==>
            out == Continue(Run(st.jobs, Tally(st.tally.created, st.tally.skipped + 1, st.tally.errors), q + 1)))
      && (!b.fails(q) && !HasJobOn(st.jobs, c.id, day) && b.fails(q + 1) ==>
            out == Continue(Run(st.jobs, Tally(st.tally.created, st.tally.skipped, st.tally.errors + 1), q + 2)))
      && (!b.fails(q) && !HasJobOn(st.jobs, c.id, day) && !b.fails(q + 1) ==>
            out == Continue(Run(st.jobs + [NewJob(c, r.snowfall, day, b.serverClock(q + 1))],
                                Tally(st.tally.created + 1, st.tally.skipped, st.tally.errors), q + 2)))
  {
    DedupGuardIsDayBucket(st.jobs, c.id, b.clock(st.calls));
  }

  /** A reading of zero snowfall makes no registry call and changes nothing,
      even for a contract of its city with threshold zero, which the contracts
      query alone would match. */
  lemma ZeroSnowfallIgnoresZeroThreshold(r: Reading, c: Contract, contracts: seq<Contract>, st: Run, b: Backend)
    requires r.snowfall == 0 && c in contracts && c.city == r.city && c.snowThreshold == 0
    ensures c in FindContracts(contracts, r.city, r.snowfall)
    ensures VisitReading(r, contracts, st, b) == Continue(st)
  {
    ThresholdBoundary(contracts, c, r.city, r.snowfall);
  }

  lemma {:induction false} ShiftedReadings(rs: seq<Reading>, k: nat, m: nat, contracts: seq<Contract>, st: Run, b: Backend)
    requires k < |rs| && k <= m <= |rs| - 1
    ensures VisitReadings(rs[..k] + rs[k + 1..], m, contracts, st, b) == VisitReadings(rs, m + 1, contracts, st, b)
    decreases |rs| - m
  {
    var rs' := rs[..k] + rs[k + 1..];
    if m < |rs'| {
      assert rs'[m] == rs[m + 1];
      match VisitReading(rs[m + 1], contracts, st, b)
      case Abort(_, _) =>
      case Continue(st') => ShiftedReadings(rs, k, m + 1, contracts, st', b);
    }
  }

  lemma {:induction false} SameReadingsBefore(rs: seq<Reading>, k: nat, i: nat, contracts: seq<Contract>, st: Run, b: Backend)
    requires k < |rs| && rs[k].snowfall <= 0 && i <= k
    ensures VisitReadings(rs[..k] + rs[k + 1..], i, contracts, st, b) == VisitReadings(rs, i, contracts, st, b)
    decreases k - i
  {
    var rs' := rs[..k] + rs[k + 1..];
    if i == k {
      ShiftedReadings(rs, k, k, contracts, st, b);
    } else {
      assert rs'[i] == rs[i];
      match VisitReading(rs[i], contracts, st, b)
      case Abort(_, _) =>
      case Continue(st') => SameReadingsBefore(rs, k, i + 1, contracts, st', b);
    }
  }

  /** Dropping a reading without positive snowfall from the fetched list leaves
      the whole cycle, registry calls included, exactly as it was. */
  lemma ZeroReadingIsInert(rs: seq<Reading>, k: nat, contracts: seq<Contract>, jobs: seq<Job>, b: Backend)
    requires k < |rs| && rs[k].snowfall <= 0
    ensures Cycle(Success(rs[..k] + rs[k + 1..]), contracts, jobs, b) == Cycle(Success(rs), contracts, jobs, b)
  {
    SameReadingsBefore(rs, k, 0, contracts, Run(jobs, Tally(0, 0, 0), 0), b);
  }

  // ----- At most one job per contract and day -----

  /** No two stored jobs of one contract were created on the same day. */
  predicate AtMostOnePerDay(jobs: seq<Job>)
  {
    forall i, k :: 0 <= i < k < |jobs| && jobs[i].contractId == jobs[k].contractId ==>
      DayStart(jobs[i].createdAt) != DayStart(jobs[k].createdAt)
  }

  /** The server stamps each insert on the same day as the client clock read
      for the dedup query just before it. */
  ghost predicate ClockAgree(b: Backend)
  {
    forall n: nat :: DayStart(b.serverClock(n + 1)) == DayStart(b.clock(n))
  }

  /** Appending a job keeps at most one per day when its contract has no job on its day yet. */
  lemma AppendKeepsAtMostOne(jobs: seq<Job>, nj: Job)
    requires AtMostOnePerDay(jobs)
    requires forall k :: 0 <= k < |jobs| && jobs[k].contractId == nj.contractId ==>
      DayStart(jobs[k].createdAt) != DayStart(nj.createdAt)
    ensures AtMostOnePerDay(jobs + [nj])
  {
    var js := jobs + [nj];
    forall i, k | 0 <= i < k < |js| && js[i].contractId == js[k].contractId
      ensures DayStart(js[i].createdAt) != DayStart(js[k].createdAt)
    {
      assert js[i] == jobs[i];
      if k < |jobs| {
        assert js[k] == jobs[k];
      }
    }
  }

  lemma VisitContractKeepsAtMostOne(c: Contract, r: Reading, st: Run, b: Backend)
    requires AtMostOnePerDay(st.jobs) && ClockAgree(b)
    ensures AtMostOnePerDay(JobsAfter(VisitContract(c, r, st, b)))
  {
    var q := st.calls;
    var today := DayStart(b.clock(q));
    if !b.fails(q) && |JobsForContractBetween(st.jobs, c.id, today, today + DAY_MS)| == 0 && !b.fails(q + 1) {
      var nj := NewJob(c, r.snowfall, today, b.serverClock(q + 1));
      assert VisitContract(c, r, st, b) == Continue(Run(st.jobs + [nj], st.tally.(created := st.tally.created + 1), q + 2));
      assert DayStart(b.serverClock(q + 1)) == today;
      forall k | 0 <= k < |st.jobs| && st.jobs[k].contractId == c.id
        ensures DayStart(st.jobs[k].createdAt) != DayStart(nj.createdAt)
      {
        assert st.jobs[k] !in JobsForContractBetween(st.jobs, c.id, today, today + DAY_MS);
        WindowIsDayBucket(st.jobs[k].createdAt, b.clock(q));
      }
      AppendKeepsAtMostOne(st.jobs, nj);
    } else {
      assert JobsAfter(VisitContract(c, r, st, b)) == st.jobs;
    }
  }

  lemma {:induction false} VisitContractsKeepAtMostOne(cs: seq<Contract>, j: nat, r: Reading, st: Run, b: Backend)
    requires j <= |cs| && AtMostOnePerDay(st.jobs) && ClockAgree(b)
    ensures AtMostOnePerDay(JobsAfter(VisitContracts(cs, j, r, st, b)))
    decreases |cs| - j
  {
    if j < |cs| {
      VisitContractKeepsAtMostOne(cs[j], r, st, b);
      match VisitContract(cs[j], r, st, b)
      case Abort(_, _) =>
      case Continue(st') => VisitContractsKeepAtMostOne(cs, j + 1, r, st', b);
    }
  }

  lemma VisitReadingKeepsAtMostOne(r: Reading, contracts: seq<Contract>, st: Run, b: Backend)
    requires AtMostOnePerDay(st.jobs) && ClockAgree(b)
    ensures AtMostOnePerDay(JobsAfter(VisitReading(r, contracts, st, b)))
  {
    if r.snowfall > 0 && !b.fails(st.calls) {
      var found := FindContracts(contracts, r.city, r.snowfall);
      var st1 := st.(calls := st.calls + 1);
      assert VisitReading(r, contracts, st, b) == VisitContracts(found, 0, r, st1, b);
      VisitContractsKeepAtMostOne(found, 0, r, st1, b);
    } else {
      assert JobsAfter(VisitReading(r, contracts, st, b)) == st.jobs;
    }
  }

  lemma {:induction false} VisitReadingsKeepAtMostOne(rs: seq<Reading>, i: nat, contracts: seq<Contract>, st: Run, b: Backend)
    requires i <= |rs| && AtMostOnePerDay(st.jobs) && ClockAgree(b)
    ensures AtMostOnePerDay(JobsAfter(VisitReadings(rs, i, contracts, st, b)))
    decreases |rs| - i
  {
    if i < |rs| {
      VisitReadingKeepsAtMostOne(rs[i], contracts, st, b);
      match VisitReading(rs[i], contracts, st, b)
      case Abort(_, _) =>
      case Continue(st') => VisitReadingsKeepAtMostOne(rs, i + 1, contracts, st', b);
    }
  }

  /** A cycle, completed or thrown, never leaves two jobs of one contract created
      on one day when the registry had none; so cycles run one after another keep
      at most one job per contract and day. Overlapping cycles are not covered. */
  lemma CycleKeepsAtMostOnePerDay(fetched: Result<seq<Reading>, FetchError>, contracts: seq<Contract>, jobs: seq<Job>, b: Backend)
    requires AtMostOnePerDay(jobs) && ClockAgree(b)
    ensures AtMostOnePerDay(JobsAfter(Cycle(fetched, contracts, jobs, b)))
  {
    if fetched.Success? {
      VisitReadingsKeepAtMostOne(fetched.value, 0, contracts, Run(jobs, Tally(0, 0, 0), 0), b);
    }
  }

  // ----- Rerunning on the same day -----

  /** Every clock the backend reports, client and server, falls on the day that starts at `day`. */
  ghost predicate OnDay(b: Backend, day: int)
  {
    forall n: nat :: DayStart(b.clock(n)) == day && DayStart(b.serverClock(n)) == day
  }

  /** Every contract matched by a positive reading from the `i`-th on has a job created on `day`. */
  ghost predicate AllDispatched(jobs: seq<Job>, rs: seq<Reading>, i: nat, contracts: seq<Contract>, day: int)
  {
    forall k, c :: i <= k < |rs| && 0 < rs[k].snowfall && c in contracts && Matches(c, rs[k].city, rs[k].snowfall)
      ==> HasJobOn(jobs, c.id, day)
  }

  lemma HasJobOnGrows(jobs: seq<Job>, more: seq<Job>, id: string, day: int)
    requires jobs <= more && HasJobOn(jobs, id, day)
    ensures HasJobOn(more, id, day)
  {
    var j :| j in jobs && j.contractId == id && day <= j.createdAt < day + DAY_MS;
    var k :| 0 <= k < |jobs| && jobs[k] == j;
    assert more[k] == j;
  }

  /** A visit on `day` that counts no error leaves the contract with a job on `day`. */
  lemma VisitContractCovers(c: Contract, r: Reading, st: Run, b: Backend, day: int)
    requires OnDay(b, day)
    requires VisitContract(c, r, st, b).Continue?
    requires VisitContract(c, r, st, b).run.tally.errors == st.tally.errors
    ensures HasJobOn(VisitContract(c, r, st, b).run.jobs, c.id, day)
  {
    var q := st.calls;
    assert DayStart(b.clock(q)) == day;
    VisitContractOutcome(c, r, st, b);
    if !HasJobOn(st.jobs, c.id, day) {
      var nj := NewJob(c, r.snowfall, day, b.serverClock(q + 1));
      assert DayStart(b.serverClock(q + 1)) == day;
      assert nj in st.jobs + [nj];
    }
  }

  lemma {:induction false} VisitContractsCover(cs: seq<Contract>, j: nat, r: Reading, st: Run, b: Backend, day: int)
    requires j <= |cs| && OnDay(b, day)
    requires VisitContracts(cs, j, r, st, b).Continue?
    requires VisitContracts(cs, j, r, st, b).run.tally.errors == st.tally.errors
    ensures forall m :: j <= m < |cs| ==> HasJobOn(VisitContracts(cs, j, r, st, b).run.jobs, cs[m].id, day)
    decreases |cs| - j
  {
    if j < |cs| {
      var first := VisitContract(cs[j], r, st, b);
      assert first.Continue?;
      var st' := first.run;
      var fin := VisitContracts(cs, j + 1, r, st', b).run;
      assert VisitContracts(cs, j, r, st, b).run == fin;
      VisitContractGrows(cs[j], r, st, b);
      VisitContractsGrow(cs, j + 1, r, st', b);
      VisitContractCovers(cs[j], r, st, b, day);
      HasJobOnGrows(st'.jobs, fin.jobs, cs[j].id, day);
      VisitContractsCover(cs, j + 1, r, st', b, day);
    }
  }

  lemma VisitReadingCovers(r: Reading, contracts: seq<Contract>, st: Run, b: Backend, day: int)
    requires OnDay(b, day)
    requires VisitReading(r, contracts, st, b).Continue?
    requires VisitReading(r, contracts, st, b).run.tally.errors == st.tally.errors
    ensures forall c :: 0 < r.snowfall && c in contracts && Matches(c, r.city, r.snowfall) ==>
      HasJobOn(VisitReading(r, contracts, st, b).run.jobs, c.id, day)
  {
    if 0 < r.snowfall {
      var found := FindContracts(contracts, r.city, r.snowfall);
      VisitContractsCover(found, 0, r, st.(calls := st.calls + 1), b, day);
      forall c | c in contracts && Matches(c, r.city, r.snowfall)
        ensures HasJobOn(VisitReading(r, contracts, st, b).run.jobs, c.id, day)
      {
        assert multiset(found)[c] > 0;
        var m :| 0 <= m < |found| && found[m] == c;
      }
    }
  }

  lemma {:induction false} VisitReadingsCover(rs: seq<Reading>, i: nat, contracts: seq<Contract>, st: Run, b: Backend, day: int)
    requires i <= |rs| && OnDay(b, day)
    requires VisitReadings(rs, i, contracts, st, b).Continue?
    requires VisitReadings(rs, i, contracts, st, b).run.tally.errors == st.tally.errors
    ensures AllDispatched(VisitReadings(rs, i, contracts, st, b).run.jobs, rs, i, contracts, day)
    decreases |rs| - i
  {
    if i < |rs| {
      var fin := VisitReadings(rs, i, contracts, st, b).run;
      var st' := VisitReading(rs[i], contracts, st, b).run;
      VisitReadingGrows(rs[i], contracts, st, b);
      VisitReadingsGrow(rs, i + 1, contracts, st', b);
      VisitReadingCovers(rs[i], contracts, st, b, day);
      VisitReadingsCover(rs, i + 1, contracts, st', b, day);
      forall k, c | i <= k < |rs| && 0 < rs[k].snowfall && c in contracts && Matches(c, rs[k].city, rs[k].snowfall)
        ensures HasJobOn(fin.jobs, c.id, day)
      {
        if k == i {
          HasJobOnGrows(st'.jobs, fin.jobs, c.id, day);
        }
      }
    }
  }

  lemma {:induction false} VisitContractsSkipAll(cs: seq<Contract>, j: nat, r: Reading, st: Run, b: Backend, day: int)
    requires j <= |cs| && OnDay(b, day)
    requires forall m :: j <= m < |cs| ==> HasJobOn(st.jobs, cs[m].id, day)
    ensures JobsAfter(VisitContracts(cs, j, r, st, b)) == st.jobs
    ensures VisitContracts(cs, j, r, st, b).Continue? ==>
      VisitContracts(cs, j, r, st, b).run.tally == st.tally.(skipped := st.tally.skipped + (|cs| - j))
    decreases |cs| - j
  {
    if j < |cs| {
      assert DayStart(b.clock(st.calls)) == day;
      VisitContractOutcome(cs[j], r, st, b);
      match VisitContract(cs[j], r, st, b)
      case Abort(_, _) =>
      case Continue(st') => VisitContractsSkipAll(cs, j + 1, r, st', b, day);
    }
  }

  lemma VisitReadingSkipsAll(r: Reading, contracts: seq<Contract>, st: Run, b: Backend, day: int)
    requires OnDay(b, day)
    requires forall c :: 0 < r.snowfall && c in contracts && Matches(c, r.city, r.snowfall) ==> HasJobOn(st.jobs, c.id, day)
    ensures JobsAfter(VisitReading(r, contracts, st, b)) == st.jobs
    ensures VisitReading(r, contracts, st, b).Continue? ==>
      VisitReading(r, contracts, st, b).run.tally
        == st.tally.(skipped := st.tally.skipped + (if r.snowfall > 0 then |FindContracts(contracts, r.city, r.snowfall)| else 0))
  {
    if r.snowfall > 0 && !b.fails(st.calls) {
      var found := FindContracts(contracts, r.city, r.snowfall);
      var st1 := st.(calls := st.calls + 1);
      assert VisitReading(r, contracts, st, b) == VisitContracts(found, 0, r, st1, b);
      forall m | 0 <= m < |found| ensures HasJobOn(st1.jobs, found[m].id, day) {
        FoundContract(contracts, r, found[m]);
      }
      VisitContractsSkipAll(found, 0, r, st1, b, day);
    } else {
      assert VisitReading(r, contracts, st, b).Abort? || VisitReading(r, contracts, st, b) == Continue(st);
    }
  }

  lemma {:induction false} VisitReadingsSkipAll(rs: seq<Reading>, i: nat, contracts: seq<Contract>, st: Run, b: Backend, day: int)
    requires i <= |rs| && OnDay(b, day)
    requires AllDispatched(st.jobs, rs, i, contracts, day)
    ensures JobsAfter(VisitReadings(rs, i, contracts, st, b)) == st.jobs
    ensures VisitReadings(rs, i, contracts, st, b).Continue? ==>
      VisitReadings(rs, i, contracts, st, b).run.tally == st.tally.(skipped := st.tally.skipped + Demand(rs, i, contracts))
    decreases |rs| - i
  {
    if i < |rs| {
      VisitReadingSkipsAll(rs[i], contracts, st, b, day);
      match VisitReading(rs[i], contracts, st, b)
      case Abort(_, _) =>
      case Continue(st') =>
        assert AllDispatched(st'.jobs, rs, i + 1, contracts, day);
        VisitReadingsSkipAll(rs, i + 1, contracts, st', b, day);
    }
  }

  /** Running the same readings again on the same day, after a cycle that
      completed without insert errors, creates nothing and leaves the registry
      unchanged: every contract the first cycle created a job for, and every
      other matched contract, is skipped. */
  lemma SameDayRerunCreatesNothing(rs: seq<Reading>, contracts: seq<Contract>, jobs: seq<Job>, b1: Backend, b2: Backend, day: int)
    requires OnDay(b1, day) && OnDay(b2, day)
    requires Cycle(Success(rs), contracts, jobs, b1).Continue?
    requires Cycle(Success(rs), contracts, jobs, b1).run.tally.errors == 0
    ensures var first := Cycle(Success(rs), contracts, jobs, b1).run;
      var second := Cycle(Success(rs), contracts, first.jobs, b2);
      && JobsAfter(second) == first.jobs
      && (second.Continue? ==>
            second.run.tally == Tally(0, first.tally.created + first.tally.skipped, 0))
  {
    var st0 := Run(jobs, Tally(0, 0, 0), 0);
    var first := Cycle(Success(rs), contracts, jobs, b1).run;
    VisitReadingsGrow(rs, 0, contracts, st0, b1);
    VisitReadingsCover(rs, 0, contracts, st0, b1, day);
    VisitReadingsSkipAll(rs, 0, contracts, Run(first.jobs, Tally(0, 0, 0), 0), b2, day);
  }
}
