/** Contracts and jobs as the dispatcher reads and writes them, with the three
    per-contract steps: the threshold evaluator, the dedup guard and the job
    materializer. */
module Records {
  import opened Results
  import opened Time
  import Decimal

  /** A service contract; `snowThreshold` is in tenths of an inch and
      `isPriority` may be absent from the stored record. */
  datatype Contract = Contract(
    id: string,
    customerId: string,
    address: string,
    city: string,
    snowThreshold: int,
    isPriority: Option<bool>)

  datatype Status = Pending | InProgress | Completed

  /** A job record; `snowfall` is in tenths of an inch, the dates are timestamps. */
  datatype Job = Job(
    contractId: string,
    customerId: string,
    address: string,
    scheduledDate: int,
    status: Status,
    snowfall: int,
    isPriority: bool,
    notes: string,
    createdAt: int,
    updatedAt: int)

  // ----- Threshold evaluator -----

  /** The contracts query: same city, threshold at or below the snowfall. */
  predicate Matches(c: Contract, city: string, snowfall: int)
  {
    c.city == city && c.snowThreshold <= snowfall
  }

  /** The contracts the query returns, each as often as it is stored, in registry order. */
  function FindContracts(contracts: seq<Contract>, city: string, snowfall: int): (found: seq<Contract>)
    ensures |found| <= |contracts|
    ensures forall c :: multiset(found)[c] == if Matches(c, city, snowfall) then multiset(contracts)[c] else 0
  {
    if contracts == [] then []
    else
      var rest := FindContracts(contracts[1..], city, snowfall);
      assert contracts == [contracts[0]] + contracts[1..];
      if Matches(contracts[0], city, snowfall) then [contracts[0]] + rest else rest
  }

  /** The threshold comparison is inclusive: equal matches, strictly below does not. */
  lemma ThresholdBoundary(contracts: seq<Contract>, c: Contract, city: string, snowfall: int)
    requires c in contracts && c.city == city
    ensures c.snowThreshold == snowfall ==> c in FindContracts(contracts, city, snowfall)
    ensures c.snowThreshold > snowfall ==> c !in FindContracts(contracts, city, snowfall)
  {
    var found := FindContracts(contracts, city, snowfall);
    assert multiset(contracts)[c] > 0;
    assert c in found <==> multiset(found)[c] > 0;
  }

  // ----- Dedup guard -----

  /** The jobs query: jobs of the contract whose `createdAt` lies in `[from, to)`. */
  function JobsForContractBetween(jobs: seq<Job>, contractId: string, from: int, to: int): (found: seq<Job>)
    ensures forall j :: j in found <==> j in jobs && j.contractId == contractId && from <= j.createdAt < to
  {
    if jobs == [] then []
    else
      var rest := JobsForContractBetween(jobs[1..], contractId, from, to);
      var j := jobs[0];
      assert forall x :: x in jobs <==> x == j || x in jobs[1..];
      if j.contractId == contractId && from <= j.createdAt < to then [j] + rest else rest
  }

  /** Some job of the contract was created on the day that starts at `day`. */
  ghost predicate HasJobOn(jobs: seq<Job>, contractId: string, day: int)
  {
    exists j :: j in jobs && j.contractId == contractId && day <= j.createdAt < day + DAY_MS
  }

  /** The dedup guard reports a job exactly when one of the contract's jobs was
      created on the same calendar day as `now`. */
  lemma DedupGuardIsDayBucket(jobs: seq<Job>, contractId: string, now: int)
    ensures |JobsForContractBetween(jobs, contractId, DayStart(now), DayStart(now) + DAY_MS)| > 0
        <==> exists k :: 0 <= k < |jobs| && jobs[k].contractId == contractId && DayStart(jobs[k].createdAt) == DayStart(now)
    ensures |JobsForContractBetween(jobs, contractId, DayStart(now), DayStart(now) + DAY_MS)| > 0
        <==> HasJobOn(jobs, contractId, DayStart(now))
  {
    var found := JobsForContractBetween(jobs, contractId, DayStart(now), DayStart(now) + DAY_MS);
    if |found| > 0 {
      assert found[0] in found;
      var k :| 0 <= k < |jobs| && jobs[k] == found[0];
      WindowIsDayBucket(jobs[k].createdAt, now);
    }
    if exists k :: 0 <= k < |jobs| && jobs[k].contractId == contractId && DayStart(jobs[k].createdAt) == DayStart(now) {
      var k :| 0 <= k < |jobs| && jobs[k].contractId == contractId && DayStart(jobs[k].createdAt) == DayStart(now);
      WindowIsDayBucket(jobs[k].createdAt, now);
      assert jobs[k] in found;
    }
    if HasJobOn(jobs, contractId, DayStart(now)) {
      var j :| j in jobs && j.contractId == contractId && DayStart(now) <= j.createdAt < DayStart(now) + DAY_MS;
      assert j in found;
    }
  }

  /** A new day re-arms a contract: when all its jobs were created on the day
      of `now`, the dedup guard one day later finds none of them. */
  lemma NextDayRearms(jobs: seq<Job>, contractId: string, now: int)
    requires forall k :: 0 <= k < |jobs| && jobs[k].contractId == contractId ==> InDayOf(jobs[k].createdAt, now)
    ensures |JobsForContractBetween(jobs, contractId, DayStart(now + DAY_MS), DayStart(now + DAY_MS) + DAY_MS)| == 0
  {
    var found := JobsForContractBetween(jobs, contractId, DayStart(now + DAY_MS), DayStart(now + DAY_MS) + DAY_MS);
    if |found| > 0 {
      assert found[0] in found;
      var k :| 0 <= k < |jobs| && jobs[k] == found[0];
      NextDayIsDisjoint(jobs[k].createdAt, now);
      assert false;
    }
  }

  // ----- Job materializer -----

  const NotesPrefix: string := "Automatically created due to "
  const NotesMiddle: string := "\" snowfall exceeding threshold of "

  /** The explanation written into an automatically created job. */
  function Notes(snowfall: int, threshold: int): string
  {
    NotesPrefix + Decimal.FormatTenths(snowfall) + NotesMiddle + Decimal.FormatTenths(threshold) + "\""
  }

  /** The position of the first `ch` in `s`, or `|s|` when there is none. */
  function IndexOf(s: string, ch: char): (k: nat)
    ensures k <= |s| && (k < |s| ==> s[k] == ch)
    ensures forall m :: 0 <= m < k ==> s[m] != ch
  {
    if s == [] then 0 else if s[0] == ch then 0 else 1 + IndexOf(s[1..], ch)
  }

  /** Reads the snowfall and the threshold back out of a job's notes. */
  function ParseNotes(s: string): Option<(int, int)>
  {
    if !(NotesPrefix <= s) then None else ParseNotesAfterPrefix(s[|NotesPrefix|..])
  }

  /** The notes after the prefix: the snowfall runs up to the first quote. */
  function ParseNotesAfterPrefix(rest: string): Option<(int, int)>
  {
    var q := IndexOf(rest, '"');
    ParseNotesFrom(rest[..q], rest[q..])
  }

  /** The snowfall text, then the middle text, the threshold and a closing quote. */
  function ParseNotesFrom(first: string, tail: string): Option<(int, int)>
  {
    if !(NotesMiddle <= tail) then None
    else
      var last := tail[|NotesMiddle|..];
      if |last| == 0 || last[|last| - 1] != '"' then None
      else
        match (Decimal.ParseTenths(first), Decimal.ParseTenths(last[..|last| - 1]))
        case (Some(a), Some(b)) => Some((a, b))
        case _ => None
  }

  lemma IndexOfPrefix(a: string, b: string, ch: char)
    requires forall k :: 0 <= k < |a| ==> a[k] != ch
    requires |b| > 0 && b[0] == ch
    ensures IndexOf(a + b, ch) == |a|
    decreases |a|
  {
    if a != [] {
      assert (a + b)[1..] == a[1..] + b;
      IndexOfPrefix(a[1..], b, ch);
    }
  }

  lemma ParseNotesFromSplits(f1: string, f2: string)
    ensures ParseNotesFrom(f1, NotesMiddle + (f2 + "\""))
         == match (Decimal.ParseTenths(f1), Decimal.ParseTenths(f2))
            case (Some(a), Some(b)) => Some((a, b))
            case _ => None
  {
    var tail := NotesMiddle + (f2 + "\"");
    assert NotesMiddle <= tail;
    var last := tail[|NotesMiddle|..];
    assert last == f2 + "\"";
    assert last[..|last| - 1] == f2;
  }

  lemma ParseNotesAfterPrefixSplits(f1: string, f2: string)
    requires forall k :: 0 <= k < |f1| ==> f1[k] != '"'
    ensures ParseNotesAfterPrefix(f1 + (NotesMiddle + (f2 + "\""))) == ParseNotesFrom(f1, NotesMiddle + (f2 + "\""))
  {
    var tail := NotesMiddle + (f2 + "\"");
    var rest := f1 + tail;
    IndexOfPrefix(f1, tail, '"');
    assert rest[..|f1|] == f1 && rest[|f1|..] == tail;
  }

  lemma ParseNotesSplits(f1: string, f2: string)
    requires forall k :: 0 <= k < |f1| ==> f1[k] != '"'
    ensures ParseNotes(NotesPrefix + f1 + NotesMiddle + f2 + "\"")
         == match (Decimal.ParseTenths(f1), Decimal.ParseTenths(f2))
            case (Some(a), Some(b)) => Some((a, b))
            case _ => None
  {
    var s := NotesPrefix + f1 + NotesMiddle + f2 + "\"";
    var rest := f1 + (NotesMiddle + (f2 + "\""));
    assert s == NotesPrefix + rest;
    assert NotesPrefix <= s && s[|NotesPrefix|..] == rest;
    ParseNotesAfterPrefixSplits(f1, f2);
    ParseNotesFromSplits(f1, f2);
  }

  /** The notes of a job determine the snowfall and the threshold they were written for. */
  lemma NotesRoundTrip(snowfall: int, threshold: int)
    ensures ParseNotes(Notes(snowfall, threshold)) == Some((snowfall, threshold))
  {
    var f1 := Decimal.FormatTenths(snowfall);
    var f2 := Decimal.FormatTenths(threshold);
    forall k | 0 <= k < |f1| ensures f1[k] != '"' {
      assert Decimal.IsDigit(f1[k]) || f1[k] == '.' || f1[k] == '-';
    }
    ParseNotesSplits(f1, f2);
    Decimal.FormatTenthsRoundTrip(snowfall);
    Decimal.FormatTenthsRoundTrip(threshold);
  }

  /** The record inserted for contract `c` and a reading of `snowfall`, where
      `today` is the midnight computed for the dedup query and `stamp` the
      server timestamp of the insert. */
  function NewJob(c: Contract, snowfall: int, today: int, stamp: int): Job
  {
    Job(
      contractId := c.id,
      customerId := c.customerId,
      address := c.address + ", " + c.city,
      scheduledDate := today + 2 * HOUR_MS,
      status := Pending,
      snowfall := snowfall,
      isPriority := match c.isPriority case Some(p) => p case None => false,
      notes := Notes(snowfall, c.snowThreshold),
      createdAt := stamp,
      updatedAt := stamp)
  }

  /** A new job is scheduled for 2 a.m. of the day of the visit, which is not
      two hours after the visit: once the visit is after 2 a.m. it lies in the past. */
  lemma ScheduledAtTwoInTheMorning(c: Contract, snowfall: int, now: int, stamp: int)
    ensures DayStart(NewJob(c, snowfall, DayStart(now), stamp).scheduledDate) == DayStart(now)
    ensures NewJob(c, snowfall, DayStart(now), stamp).scheduledDate == DayStart(now) + 2 * HOUR_MS
    ensures now >= DayStart(now) + 2 * HOUR_MS ==> NewJob(c, snowfall, DayStart(now), stamp).scheduledDate <= now
  {
    DayStartUnique(DayStart(now) + 2 * HOUR_MS, DayStart(now));
  }

  /** A new job is pending, its priority defaults to `false` when the contract
      has none, and its notes give back the snowfall and the threshold. */
  lemma NewJobRecordsItsTrigger(c: Contract, snowfall: int, today: int, stamp: int)
    ensures var j := NewJob(c, snowfall, today, stamp);
      && j.status == Pending
      && j.isPriority == (c.isPriority == Some(true))
      && ParseNotes(j.notes) == Some((snowfall, c.snowThreshold))
  {
    NotesRoundTrip(snowfall, c.snowThreshold);
  }
}
