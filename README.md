# Endpoint health monitor — Dafny model

This project models the bookkeeping core of a small HTTP endpoint monitor
(`app.py`, class `EPM`). The monitor loads a list of endpoints, probes every
endpoint once per cycle and classifies each probe as UP (a 2xx status in
under 500 ms) or DOWN (anything else, including any exception). It keeps
cumulative per-domain counters `{up, total}` and, after each cycle, prints one
line per domain: `"<domain> has <p>% availability percentage"`.

Modules, leaves first:

- `Wrappers`: `Option`.
- `Seqs`: duplicate-freedom, first index, reordering by a permutation of indices.
- `Rounding`: exact round-half-to-even of a quotient (Python's `round`), and the
  percentage `round(100 * up / total)`.
- `Decimal`: the decimal text of an integer (Python's `str` of an `int`).
- `Probe`: what the transport reports for one request, and the UP predicate.
- `Config`: the endpoint record and the default method `GET`.
- `Statistics`: the per-domain counters as a value (`Stats`: keys in
  insertion order plus a map of counters), the update one outcome makes
  (`Record`), a run of updates (`ApplyAll`), and what they preserve.
- `Reporting`: the report as a sequence of (domain, percent) pairs and its
  printed lines.
- `Monitor`: class `EndpointMonitor`, the `EPM` object. Its fields are the
  endpoint list and the statistics. Its methods `LoadConfig`, `CheckEndpoint`,
  `PrintAvailability`, `Gather` (the `asyncio.gather` of one cycle) and
  `MonitorCycle` are proved against the functions of
  `Statistics` and `Reporting`.
- `Scenarios`: whole-run consequences (a mixed cycle, convergence to 50%).

Inputs the model takes as parameters instead of computing them:

- `domainOf: string -> string` stands for `urlparse(url).netloc` of a url that parses (see "## Left out").
- An `Outcome` per endpoint stands for the HTTP exchange. It is either
  `Responded(status, elapsedMs)` or `Raised`.
- `arrival` is the order in which the concurrent checks of one cycle finish.
  It is any permutation of the endpoint indices.
- `LoadConfig` receives the already-parsed YAML list.

Printing is modelled as returning the printed lines.

Points where the model had to make a reading of the code:

- Under `asyncio.gather` every check runs its counter update without an
  `await` in between. So a cycle is exactly a sequential application of the
  outcomes, in completion order. `MonitorCycle` lets that order be any
  permutation. It proves that the counters do not depend on it
  (`Statistics.TallyPermutation`). Only the position of a domain seen for the
  first time in the key order does.
- The code never creates a domain entry without counting a check at once,
  since both paths increment `total` right after the lazy creation. So every
  entry in a reachable state has `total > 0` (`Statistics.Probed`), and the
  report lists every domain (`Reporting.ReportCoversAll`). The `total > 0`
  filter in `printAvailability` is modelled all the same.
- The code reads `endpoint['url']` before its `try` (app.py:36). A record
  without `url` therefore raises out of the cycle and ends the program with
  status 1. It is not counted as DOWN. The model makes `url` a required
  field, so this failure is outside it.
- Statistics accumulate over the process lifetime. With an empty endpoint
  list nothing is ever recorded, so no line is printed
  (`Scenarios.NoEndpointsNoLines`, which builds a monitor, loads an empty
  list and runs one cycle). With a non-empty list, every cycle prints
  the accumulated statistics.

## Model

| member | source | states |
|---|---|---|
| `Monitor.EndpointMonitor.constructor` | app.py:13-17 | a new monitor has no endpoints and empty statistics, which are consistent |
| `Monitor.EndpointMonitor.LoadConfig` | app.py:19-27 | after loading, the endpoint list has the parsed length and order; each endpoint is the parsed one with `GET` supplied exactly when it had no method; every endpoint has a method; statistics untouched |
| `Config.WithDefaultMethod` | app.py:26-27 | the result always has a method; an existing method is kept, a missing one becomes `GET`; url, headers and body are unchanged |
| `Probe.IsUp` | app.py:52 | definition of UP: a response with status in [200, 300) and under 500 ms; its properties are the rows `Probe.IsUpStatusClass`, `Probe.IsUpBoundaries`, `Probe.IsUpExamples` |
| `Probe.IsUpStatusClass` | app.py:52 | UP iff the transport responded, the status is in the 2xx family (status div 100 = 2) and latency is under 500 ms |
| `Probe.IsUpBoundaries` | app.py:51-52 | an exception is DOWN; a non-2xx status is DOWN at any latency; 500 ms or more is DOWN at any status; 2xx under 500 ms is UP |
| `Probe.IsUpExamples` | app.py:52 | 200 at 100 ms and 299 at 499 ms are UP; 200 at 600 ms, 200 at 500 ms, 503 at 50 ms, 300 and 199 are DOWN |
| `Monitor.EndpointMonitor.Touch` | app.py:16 | reading a domain's entry creates `{up: 0, total: 0}` at the end of the key order when it is missing, and changes nothing otherwise |
| `Monitor.EndpointMonitor.CheckEndpoint` | app.py:33-61 | the statistics after one check equal `Record` of the old statistics and the outcome; consistency is kept; endpoints unchanged |
| `Statistics.Lookup` | app.py:16 | definition of reading the default dictionary: the stored counters, or `{up: 0, total: 0}` for a domain not seen before; used by `Statistics.RecordEffect` |
| `Statistics.Bump` | app.py:55-61 | definition of the counter update for one outcome; its properties are the rows `Statistics.RecordEffect`, `Statistics.TallyPermutation` |
| `Statistics.Record` | app.py:55-61 | definition of the statistics after one outcome, with a new domain appended to the key order; its properties are the rows `Statistics.RecordEffect`, `Statistics.RecordValid`, `Statistics.RecordChecks`; `Monitor.EndpointMonitor.CheckEndpoint` is proved equal to it |
| `Statistics.ApplyAll` | app.py:70-76 | definition of the statistics after a sequence of outcomes, first to last; its properties are the rows `Statistics.ApplyAllValid`, `Statistics.ApplyAllGrows`, `Statistics.ApplyAllChecks`, `Statistics.ApplyAllOrderIndependent`; `Monitor.EndpointMonitor.MonitorCycle` is proved equal to it |
| `Statistics.RecordEffect` | app.py:55-61 | one outcome adds exactly 1 to its domain's total; on a response it adds 1 to up iff the check is UP; on an exception up is unchanged; every other domain's counters are unchanged; the only key that can appear is the outcome's domain |
| `Statistics.RecordValid` | app.py:55-61 | one outcome keeps the keys listed once, the key list equal to the entries and `up <= total`; it keeps "every entry has been checked" |
| `Statistics.ApplyAllValid` | app.py:55-61 | any sequence of outcomes keeps those invariants |
| `Statistics.ApplyAllGrows` | app.py:55-61 | counters never decrease; no domain is removed; the key order is only extended at its end |
| `Statistics.RecordChecks` | app.py:55-61 | each outcome raises the sum of totals over all domains by exactly 1 |
| `Statistics.ApplyAllChecks` | app.py:70-76 | N outcomes raise the sum of totals by exactly N |
| `Statistics.TallyPermutation` | app.py:72-76 | the counters after a sequence of outcomes depend only on the multiset of outcomes, not on their order |
| `Statistics.ApplyAllOrderIndependent` | app.py:72-76 | outcomes applied in any order give the same counters, and the same set of domains |
| `Monitor.Tasks` | app.py:73-75 | definition of the task list: one task per endpoint, in endpoint order; used by `Monitor.EndpointMonitor.MonitorCycle` |
| `Monitor.Observations` | app.py:33-36 | definition of what each task contributes: its endpoint's domain and its outcome; used by `Monitor.EndpointMonitor.MonitorCycle` |
| `Monitor.EndpointMonitor.Gather` | app.py:76 | the checks of one cycle complete one at a time in arrival order, each with its own update: the new statistics are `ApplyAll` of the old ones over the outcomes in arrival order; consistency is kept; endpoints unchanged |
| `Monitor.CycleEffect` | app.py:70-76 | outcomes applied in any arrival order that is a permutation of the endpoints keep consistency, give the counters of endpoint order, add exactly one check per endpoint, and decrease nothing |
| `Monitor.EndpointMonitor.MonitorCycle` | app.py:70-78 | one cycle applies one outcome per endpoint in completion order; the counters equal those of applying them in endpoint order; the sum of totals rises by the number of endpoints; nothing decreases; the returned lines are the report of the new state |
| `Monitor.EndpointMonitor.PrintAvailability` | app.py:63-68 | the printed lines are the lines of the report of the current statistics, one per domain |
| `Reporting.Entries` | app.py:65-67 | definition of the reported pairs for a key order: the domains with `total > 0`, in that order, with their percentages; its properties are the rows `Reporting.EntriesSound`, `Reporting.ReportDomains`, `Reporting.ReportOrdered` |
| `Reporting.Report` | app.py:63-67 | definition of the report of the statistics: `Entries` over the key order; its properties are the rows `Reporting.ReportDomains`, `Reporting.ReportPercents`, `Reporting.ReportOrdered`, `Reporting.ReportCoversAll` |
| `Reporting.Line` | app.py:68 | definition of one printed line; its property is the row `Reporting.LineFormat` |
| `Reporting.Lines` | app.py:65-68 | definition of the printed lines, one per reported pair, in report order; `Monitor.EndpointMonitor.PrintAvailability` is proved equal to it |
| `Reporting.EntriesSound` | app.py:65-67 | every reported pair names a listed domain with an entry and `total > 0`, and carries `Percent(up, total)` |
| `Reporting.ReportDomains` | app.py:65-66 | a domain is reported iff it has an entry with `total > 0` |
| `Reporting.ReportPercents` | app.py:67 | each reported percentage is `Percent(up, total)` of its domain and lies in [0, 100] |
| `Reporting.ReportOrdered` | app.py:65 | the reported domains follow strictly increasing first-insertion positions, so each appears once and in insertion order |
| `Reporting.ReportCoversAll` | app.py:65-66 | when every entry has been checked, the reported domains are exactly the key order |
| `Reporting.LineFormat` | app.py:68 | a line is the domain, then `" has "`, then decimal digits, then `"% availability percentage"`; the digits have no leading zero and read back as the percentage |
| `Rounding.RoundHalfEven` | app.py:67 | the result is within half a unit of n / d, and even when n / d is exactly halfway |
| `Rounding.RoundHalfEvenUnique` | app.py:67 | exactly one integer meets that condition, so the function is Python's round of the exact quotient |
| `Rounding.Percent` | app.py:67 | when `up <= total` the percentage lies between 0 and 100 |
| `Rounding.PercentExact` | app.py:67 | a ratio that is an exact percentage k is reported as k |
| `Rounding.PercentExamples` | app.py:67 | 1/2 is 50, 1/8 is 12 (tie to even), 3/8 is 38, 1/3 is 33, 2/3 is 67, 3/200 is 2 |
| `Decimal.NatToDecimal` | app.py:68 | the text of a natural number is non-empty, all decimal digits, with no leading zero |
| `Decimal.DecimalRoundTrip` | app.py:68 | reading back the digits written for n gives n |
| `Decimal.IntToDecimal` | app.py:68 | the text of an integer starts with a minus sign iff the integer is negative, and is an optional minus sign followed by at least one digit |
| `Decimal.SignedRoundTrip` | app.py:68 | reading back the text written for any integer gives that integer |
| `Scenarios.MixedOutcomes` | app.py:55-61 | A-up, B-down, A-down, applied in any order, leave A at 1 of 2 (50%) and B at 0 of 1 (0%) |
| `Scenarios.CyclesCounters` | app.py:92-93 | k cycles over one always-UP and one always-DOWN endpoint of one domain leave it at k of 2k |
| `Scenarios.HalfAvailability` | app.py:63-68 | after every such cycle the report is exactly that domain at 50% |
| `Scenarios.NoEndpointsNoLines` | app.py:70-78 | a new monitor that loads an empty endpoint list prints no line in its first cycle |

## Left out

- HTTP transport: the `aiohttp` session, the request with its method, headers and body, and the 5 s `ClientTimeout` are not modelled. Their result is the `Outcome` input, and a timeout is `Raised`.
- Exceptions while leaving the response context: the exit of the `async with` runs after the counters are updated. An exception raised there would also run the `except` branch and count the check twice. No `Outcome` value produces that case.
- Concurrency: `asyncio.gather` is modelled as applying the outcomes one after another in the order given by `arrival`. The interleaving of the network waits is not modelled.
- Timing: `time.time()` is not modelled. The elapsed time is an integer number of milliseconds, given as input. A float `x` is below 500 iff its floor is.
- Rounding.Percent: computes `round` of the exact quotient `100 * up / total`, not of its floating-point value. The two agree unless `total` is astronomically large.
- Configuration I/O: `open` and `yaml.safe_load` are not modelled, and neither are their failures (a missing file, invalid YAML, a document that is not a list). `LoadConfig` starts from the parsed list. The `configPath` field is kept but never read.
- Config.Endpoint: a `method` key that is present with a null value is not told apart from an absent key.
- urlparse: `getDomain` (`urlparse(url).netloc`) is the `domainOf` parameter, and it is total. A url that `urlparse` rejects raises outside the `try` (app.py:36). Rejected urls include an unbalanced `[` or `]`, a bracketed host that is not an IP address, a non-ASCII authority whose NFKC form gains one of `/?#@:`, and a non-empty value that is not a string. Like a missing `url`, that is fatal: the error ends the cycle and the program exits with status 1 (app.py:96-98), with no count and no report. The model assumes every configured url parses. A null `url` (`url:` with no value) has no counterpart in `Config.Endpoint`'s `url: string`: `urlparse` turns it into the empty domain `b''`, the request then fails inside the `try`, and the program counts it DOWN under `b''` on every cycle rather than failing.
- Process plumbing: the `running` flag, `handleInterrupt` and `SIGINT`, the `run` loop with `asyncio.sleep(15)`, the stderr message with `sys.exit(1)`, and `main` with its argparse. None of these touch the statistics. Repeated cycles are covered by `ApplyAllAppend` and `Scenarios.CyclesCounters`.
- Console output: each printed line is returned as a string, not written to stdout.
