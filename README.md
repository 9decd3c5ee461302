# Snow-removal job dispatcher

This project models the dispatch cycle of a snow-removal service and proves properties of that model. The cycle is `checkWeatherAndCreateJobs` in `src/services/weatherService.js`, and it reads its input from the mock weather source `getWeatherForAllCities`. Each cycle does the following:

- It reads one snowfall reading per monitored city.
- For every reading with positive snowfall, it queries the contracts of that city whose threshold the snowfall reaches.
- For every matched contract, it queries the jobs of that contract whose `createdAt` lies in the half-open window from local midnight up to, and not including, the next local midnight.
- When there are none, it inserts a pending job for the contract.
- It counts each contract visit as `created`, `skipped` or `errors`, and returns that tally.

Modules, one per file:

- `Results` (`results.dfy`): `Option` and `Result`.
- `Time` (`time.dfy`): timestamps in milliseconds, midnight of a day (`DayStart`) and the half-open dedup window.
- `Decimal` (`decimal.dfy`):
  - Snowfall in integer tenths of an inch.
  - The decimal text that JavaScript's `String(number)` produces for such a value, and its parser.
  - The rounding of a random draw to tenths.
- `Weather` (`weather.dfy`): cities, readings and the mock weather source.
- `Records` (`records.dfy`): contracts and jobs, and three per-contract steps:
  - the threshold query (`FindContracts`);
  - the dedup query (`JobsForContractBetween`);
  - the job record (`NewJob`, with its `notes` text and a parser for it).
- `Registry` (`registry.dfy`): the job collection, as a class whose `jobs` field the insert extends.
- `Dispatch` (`dispatch.dfy`):
  - the cycle as imperative code (`CheckWeatherAndCreateJobs`, with `DispatchContract` as its inner-loop body);
  - a reference definition of the cycle on values (`Cycle`, a fold over the readings and the contracts), which the method is proved to implement exactly.
- `DispatchProperties` (`dispatch_properties.dfy`): what a cycle guarantees, proved about `Cycle`.

The registries and their clocks are inputs. A `Backend` value answers the n-th registry call of a cycle in call order. The calls are the contracts query, each jobs query and each insert:

- `fails(n)` says that call n throws.
- `clock(n)` is the client clock read for the jobs query n. It stands for `new Date()`.
- `serverClock(n)` is the `serverTimestamp()` stored by insert n.

### Behaviour of the code worth knowing

- **A failed registry query ends the cycle.** This applies to both the contracts query and the jobs query. The code does not recover from such a failure per contract and go on with the next one. Neither `getDocs` call is inside the per-contract `try`, so the error reaches the outer `catch` and is rethrown. The model returns `Failure(QueryFailed)` in that case, and only the jobs inserted before it remain (`Dispatch.Step.Abort`). Only a failed insert is counted in `errors`.
- **The scheduled date is 2 a.m. of the visit's day.** The code adds two hours to the local midnight, although its comment says "2 hours from now". `Records.ScheduledAtTwoInTheMorning` states what the code does.
- **Duplicate prevention is check-then-act, with nothing else behind it.** Nothing prevents a duplicate between the query and the insert: there is no uniqueness constraint, lock or transaction. The at-most-one-job-per-day property is therefore proved for cycles that run one after another.
- **Any job of the contract created that day blocks a new one.** The dedup query matches on `contractId` and `createdAt` only, so a job an operator entered manually also blocks one.
- **The dedup day comes from the client clock.** The day in the dedup query is computed from the client clock once per contract. The `createdAt` it is compared with is the server's timestamp.
- **There are no configuration options.** The code has no setting for the lead time of a job, no limit on concurrent work and no timeout on a registry call or on the fetch.

## Model

| member | source | states |
|---|---|---|
| Time.DayStart | src/services/weatherService.js:63-64 | the midnight is a multiple of one day, at or below the time and less than a day below it |
| Time.DayStartUnique | src/services/weatherService.js:63-67 | any multiple of one day at most a day below a time is that time's midnight |
| Time.WindowIsDayBucket | src/services/weatherService.js:63-74 | a timestamp lies in `[today, tomorrow)` exactly when it has the same midnight as now; the window includes midnight and excludes the next one |
| Time.NextDayIsDisjoint | src/services/weatherService.js:66-67 | a time in today's window is never in tomorrow's window |
| Decimal.NatRoundTrip | src/services/weatherService.js:89 | parsing a natural number's decimal digits gives the number back |
| Decimal.FormatTenthsRoundTrip | src/services/weatherService.js:89 | parsing the decimal text of a tenths value gives the value back, negative values and whole numbers included |
| Decimal.SnowfallTenths | src/services/weatherService.js:30 | the draw rounded to the nearest tenth of 8 inches, with halves rounded up; a draw in [0, 1) gives 0 to 80 tenths |
| Weather.MockReadings | src/services/weatherService.js:27-33 | one reading per city, in city order, each with the city's name, its own draw rounded to tenths and its own clock reading |
| Weather.MockSnowfallInRange | src/services/weatherService.js:29-30 | every mock reading is between 0 and 8 inches when every draw lies in [0, 1) |
| Weather.GetWeatherForAllCities | src/services/weatherService.js:22-40 | the fetch fails exactly when the source throws, with the very error it caught; otherwise it yields, for the k-th monitored city in list order, a reading with that city's name, the k-th draw rounded to tenths and the k-th clock reading |
| Records.FindContracts | src/services/weatherService.js:51-57 | the matched contracts are exactly the stored ones with the reading's city and a threshold at or below the snowfall, each as often as it is stored |
| Records.ThresholdBoundary | src/services/weatherService.js:54 | a contract whose threshold equals the snowfall is matched; one whose threshold is above it is not |
| Records.JobsForContractBetween | src/services/weatherService.js:69-76 | a job is returned exactly when it is stored, belongs to the contract and was created in `[from, to)` |
| Records.DedupGuardIsDayBucket | src/services/weatherService.js:62-78 | the dedup query finds a job exactly when some job of the contract was created on the same day as now |
| Records.NextDayRearms | src/services/weatherService.js:62-78 | when all of a contract's jobs were created on the day of now, the query one day later finds none |
| Records.NotesRoundTrip | src/services/weatherService.js:89 | the notes text of a new job gives back the snowfall and the threshold it was written for |
| Records.ScheduledAtTwoInTheMorning | src/services/weatherService.js:63-85 | the scheduled date is the visit day's midnight plus two hours, on the same day, and so already past once the visit is after 2 a.m. |
| Records.NewJobRecordsItsTrigger | src/services/weatherService.js:81-92 | a new job is pending, its priority is true only for a contract whose priority is true and defaults to false, and its notes give back the reading's snowfall and the contract's threshold |
| Registry.JobRegistry.Insert | src/services/weatherService.js:81-92 | a successful insert appends the job to the stored ones; a failed insert leaves them unchanged and reports the failure |
| Dispatch.DispatchContract | src/services/weatherService.js:59-101 | one contract visit does exactly what the reference definition says: it throws when the jobs query fails; it skips when the query finds a job; it counts an error when the insert fails; otherwise it appends the new job and counts it as created |
| Dispatch.CheckWeatherAndCreateJobs | src/services/weatherService.js:43-111 | the returned tally or error, and the jobs left in the registry, are those of the reference cycle over the fetched readings, the contracts and the previously stored jobs |
| DispatchProperties.CycleAccounting | src/services/weatherService.js:45-106 | a cycle keeps all stored jobs as a prefix; every job it appends is the pending record built, for one of the fetched readings with positive snowfall, from a contract that the contracts query matched for that reading's city and snowfall, and it carries that reading's snowfall; a failed fetch writes nothing; a completed cycle counts as many visits (created + skipped + errors) as there are matched contracts over the positive readings, and adds exactly `created` jobs |
| DispatchProperties.VisitContractOutcome | src/services/weatherService.js:62-101 | one visit, in day terms: it throws exactly when the jobs query fails, without writing; it skips when the contract already has a job on the visit's day; otherwise it appends one new pending job, or counts an insert error and writes nothing |
| DispatchProperties.ZeroSnowfallIgnoresZeroThreshold | src/services/weatherService.js:49-55 | a zero reading makes no registry call and changes nothing, even though a zero-threshold contract of its city would match the contracts query |
| DispatchProperties.ZeroReadingIsInert | src/services/weatherService.js:48-49 | removing a reading without positive snowfall from the fetched list leaves the whole cycle unchanged, registry calls included |
| DispatchProperties.CycleKeepsAtMostOnePerDay | src/services/weatherService.js:62-92 | if no contract had two jobs created on one day before a cycle, none has after it, whether the cycle completes or throws |
| DispatchProperties.SameDayRerunCreatesNothing | src/services/weatherService.js:62-100 | after a cycle that completed without insert errors, a second cycle on the same day leaves the registry unchanged; if it completes, it skips every contract the first cycle created or skipped, and counts nothing else |

## Left out

- **Concurrency.** Overlapping cycles, the race between the dedup query and the insert, and a worker pool are not modelled. Cycles are sequential, and each cycle's registry calls happen one after another, as the `await`s in the loop make them.
- **Firestore and axios.** They are not part of this model. The contract registry is a sequence given to the cycle. The job registry is the `JobRegistry` class. The failures and timestamps of the registry calls are the `Backend` parameter. The unused `axios` import is left out.
- **Firestore result order.** Firestore returns results ordered by the range-filtered field. The model returns matches in stored order. No property here depends on that order.
- **JavaScript `Date`.** Time zones, and the 23- and 25-hour days that `setDate` gives at daylight-saving changes, are left out. Times are integer milliseconds in one local frame, and a day is always 24 hours. Because of that, `serverTimestamp()` and the client clock are compared as plain numbers.
- **Floating point.** Snowfall and thresholds are integer tenths of an inch. A value with a finer fraction, and the exponent notation JavaScript prints for very large or very small numbers, are not modelled.
- **Fields the cycle does not use for decisions.** The temperature of a reading, the latitude and longitude of a city (they are kept as data only) and `API_KEY` are left out.
- **`Math.random()` and `new Date()` in the mock source.** They are the `draw` and `clock` parameters of `Weather.MockReadings`.
- **`console.error` logging.** It is left out.
- **Document ids.** The id of an automatically created job is not modelled. A contract's document id is its `id` field.
- **Fields stored with other types.** An `isPriority` that is present but not a boolean is left out. So is a `snowThreshold` stored as text, which the contract edit form in `src/components/Contract.js` can write. `isPriority` is either a boolean or absent, and `||` maps an absent value to `false`.
- **The rest of the application.** The user-interface components and the login guard in `src/App.js` are not part of this model. They only display or trigger the cycle.
- SameDayRerunCreatesNothing: it requires the first cycle to have completed with no insert errors. A contract whose insert failed has no job yet, so a rerun may create one.
- CycleKeepsAtMostOnePerDay: it requires `ClockAgree`, which says that the server stamps an insert on the same day as the client clock read for the query just before it. It only covers cycles run one after another. Under concurrency the source does not keep this property.
- CycleAccounting: the visits are proved equal in number to the matched contracts, not matched up contract by contract. The model keeps no per-contract log of visits.
