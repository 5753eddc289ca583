# ip-tools, verified

A Dafny model of the logic of `ip-tools`, a network diagnosis tool: its bounded-concurrency probe
sweeps, the calendar arithmetic under its certificate verdicts, its DNS wire codec, its statistics, its
diagnostic engine, and two small protocols it prints and reads. Sockets, TLS, QUIC and HTTP libraries are
replaced by arbitrary outcomes; what the parts below compute from those outcomes is modelled branch by
branch, and "Left out" says what is not. `dafny verify dfyconfig.toml` checks the whole project.

What is proved, in the tool's own terms:

* **Sweeps.** `diagnose` is a step system over every interleaving of target tasks and probes. In every
  reachable state the free shared permits and the running probes add up to the clamped concurrency; an
  unfinished state always has a step, although target tasks hold an outer permit while they wait for
  inner ones; every completed run takes the same number of steps, starts each (target, phase, address)
  probe once, and delivers exactly the report of probing one thing after the other, and what each field of
  that report holds is stated. `run_probe_flow` is a
  method over a nondeterministic scheduler whose output is proved to be the sequential one.
* **Dates and expiry.** The two civil-date routines are inverse bijections between day numbers and valid
  Gregorian dates, strictly increasing. The expiry test, which combines a day-granular and a
  second-granular comparison, is exact for a timestamp at every "now" if and only if that timestamp lies
  between 1970 and the end of year 9999; the test for a validity that has not begun, if and only if it
  lies before the end of year 9999.
* **DNS.** What each of the three name walkers accepts, what it reads, where it stops, and exactly where
  the walkers differ; that every query decodes to its own host and type; that every laid-out response,
  with compression pointers to anywhere in the message, parses to exactly its wanted records, and is refused
  when it is cut short; that the DoH parameter decodes to the exact query.
* **Statistics.** Every percentile is the nearest-rank value, the mean lies between the extremes, twice
  the jitter is at most the range, and attempts are conserved. A report of repeated probes depends on
  which outcomes occurred, and a table of repeated lookups on what each round observed, not on the order
  of arrival or of a hash map.
* **Diagnosis.** How often each verdict is given is a condition on the rows, nothing else is ever said, and
  the order is fixed. The verdicts are the same for every order of every observation list exactly when the
  HTTP rows are settled (a condition on the rows). Learning of addresses without a local route never
  changes whether total loss or partial connectivity is reported, and changes whether filtering is
  reported exactly when the QUIC-only signal appears with them as the second signal. The failures nobody
  reports, the inputs that are called healthy although a probe failed, and the inputs on which the engine
  answers with high confidence, in a fault or in health, are each characterised exactly.
* **Bodies and authorities.** A capped body read does not depend on how the body was cut into chunks; a
  printed authority parses back to its host and port.

Where the code and its documentation disagree, the model follows the code:

* `parallel_map_with_limit` says that the outer and the inner maps share one limit
  (src/cli/mod.rs:1502-1509); `diagnose` gives the outer map permits of its own
  (src/cli/diagnose.rs:156-167). Each bound is proved (`Sweep.PermitsConserved`); together more permits are
  out than one limit allows, at some moment of some schedule, exactly when there is an address to probe and
  targets and addresses together outnumber the limit (`SweepLimits.OneLimitExceeded`).
* With `--plain` the HTTP/2 and HTTP/3 probes are said to be skipped (src/cli/diagnose.rs:655-657). Every
  finished plain run sends both to every address, so it sends one exactly when some target has an address
  (`SweepLimits.PlainStillProbes`); only their results are dropped (`SweepLimits.PlainDropsResults`,
  src/cli/diagnose.rs:703-800).
* The TTL of a response is documented as that of its first answer (src/dns.rs:980-981). It is that of the
  first answer of the wanted type; the two are the same exactly when the first answer is of that type or
  the first wanted one carries an equal TTL (`DnsLayout.TtlOfFirstAnswer`), and differ when an alias with
  another TTL comes first (`DnsLayout.AliasFirst`).
* The model of a diagnosis rules out high confidence "from a single observation type"
  (src/model/diagnosis.rs:21-24). The engine answers with high confidence exactly when one of its rules
  raises the alarm or all is well, since the healthy verdict claims it too (`Reporting.HighExactly`).
  `Reporting.HighFromOneType` says for each list alone when it does: always for the repeats, for the DNS
  rows unless resolvers disagree, and even for the HTTP rows when they are well. Apart from the healthy
  verdict a single type is all it ever needs (`Reporting.AlarmFromOneType`). One failed lookup is enough
  (`Reporting.HighFromOneObservation`), and so is no observation at all (`Reporting.HighFromNothing`).
* `body_capped` is said to tell a body that hit the cap from one that ended there
  (src/model/http.rs:42-46). It does so exactly when the body does not end at the cap
  (`HttpBody.CappedMeansCut`).
* A certificate that is already expired should surface from `diagnose` (src/diagnostics/layer.rs:317-323).
  One whose `notAfter` lies before 1970 has no printed date and is never called expired
  (src/tls.rs:475-477, `Expiry.ExpiryExact`).

## Model

| member | source | states |
|---|---|---|
| ParallelMap.Permits | src/cli/mod.rs:1498-1500 | the permit pool has between 1 and 256 permits, and exactly the requested number inside that range |
| ParallelMap.ParallelMapWithLimit | src/cli/mod.rs:1510-1541 | under any scheduler the call ends, never blocks while permits are its own, runs every item once and returns the values of the items that did not panic, in some completion order |
| ParallelMap.SortedCollectIsSequential | src/cli/diagnose.rs:486-499 | whatever order the items completed in, the stable sort by key gives back input order, and each item's own values keep their order (the TCP repeat before the HTTP repeat) |
| ParallelMap.Pool.DoneJoinsAll | src/cli/mod.rs:1533-1540 | a finished call has joined every item exactly once |
| Sweep.Step | src/cli/mod.rs:1522-1540 | every step of every target task keeps the sweep's invariant and leaves exactly one step less to take |
| Sweep.RunKeepsInv | src/cli/diagnose.rs:156-205 | the invariant holds in every state of every run, and the work left plus the steps taken never changes |
| Sweep.PermitsConserved | src/cli/diagnose.rs:156-164 | in every reachable state free inner permits plus running probes over all targets equal the clamped concurrency, and likewise for the outer permits; at most 256 probes run |
| Sweep.NoDeadlock | src/cli/diagnose.rs:160-163 | every reachable unfinished state has an enabled step, although target tasks hold outer permits while they wait for inner ones |
| Sweep.RunCanFinish | src/cli/diagnose.rs:164-207 | every run can be completed |
| Sweep.EveryScheduleAgrees | src/cli/diagnose.rs:395-499 | every completed run has the same number of steps, starts each (target, phase, address) probe exactly once, and delivers the report of probing sequentially |
| Sweep.AddressesIncrease | src/cli/diagnose.rs:318-356 | the probed addresses of a target are strictly increasing, so destinations are distinct sort keys |
| SweepReports.ProbedAddresses | src/cli/diagnose.rs:318-394 | a target is probed exactly at the addresses its lookups gave, on its own port and of the family asked for, each once and in increasing order |
| SweepReports.PhaseHolds | src/cli/diagnose.rs:395-424 | a phase holds, for every probed address, exactly what its probe observed there and nothing else, sorted by destination |
| SweepReports.ReportsDelivered | src/cli/diagnose.rs:395-524 | every finished run delivers, in target order, for each target with an address its TCP probes, its TLS handshakes unless the run is plain, its HTTP/1.1 responses followed unless the run is plain by those over HTTP/2 and HTTP/3, and its repeats; the other targets are counted as unresolved |
| SweepReports.ProbedPhaseByPhase | src/cli/diagnose.rs:395-499 | in every run each target is probed phase by phase: TCP, TLS, HTTP/1.1, HTTP/2, HTTP/3, repeats |
| Sweep.PhaseIsSequential | src/cli/diagnose.rs:395-400 | joining a phase's probes in any order and sorting by destination equals probing the addresses in order |
| SweepLimits.OneLimitExceeded | src/cli/mod.rs:1502-1509 | at some moment of some schedule more permits are out than one shared limit allows, exactly when there is an address to probe and targets and addresses together outnumber the limit |
| SweepLimits.OneTargetExceeds | src/cli/diagnose.rs:164-167 | with one permit, one target with one address is enough |
| SweepLimits.PlainStillProbes | src/cli/diagnose.rs:703-800 | every finished plain run has sent an HTTP/2 and an HTTP/3 probe to every address, so it sends one exactly when some target has an address |
| SweepLimits.PlainDropsResults | src/cli/diagnose.rs:796-802 | a plain report does not depend on what those probes observed |
| ProbeFlow.RunProbeFlow | src/cli/mod.rs:1042-1324 | resolve, probe and regroup under one shared limit: the output is that of the sequential flow, whatever order both parallel maps complete in |
| ProbeFlow.Regroup | src/cli/mod.rs:1298-1303 | filing results by target index collects, for every target, its results in the order they came back |
| ProbeFlow.RegroupedIsSequential | src/cli/mod.rs:1285-1311 | after grouping by target, the stable sort by destination undoes the completion order |
| ProbeFlow.KeysDistinct | src/cli/mod.rs:1589-1592 | because addresses are de-duplicated, the observations of one target have distinct sort keys |
| ProbeFlow.ResolvedInOrder | src/cli/mod.rs:1176-1222 | sorting the resolved targets by index undoes the completion order of the lookups |
| ProbeFlow.FlowDestinations | src/cli/mod.rs:1186-1212 | the destinations of a target are the addresses its lookups gave, on its own port, within the scope; it has none exactly when no lookup is in scope |
| ProbeFlow.FlowHolds | src/cli/mod.rs:1298-1324 | the flow reports, in target order, every target whose lookup left something to probe, and counts those whose lookup left nothing |
| ProbeFlow.ResultsHold | src/cli/mod.rs:1285-1311 | the results of a target are exactly what the probes of its destinations observed, sorted by destination |
| Resolution.ResolveForTcpServers | src/cli/mod.rs:1549-1594 | a literal stands for itself; otherwise the addresses of every successful answer, first occurrences in order, or an error when there are none |
| Resolution.ResolvedExactly | src/cli/mod.rs:1563-1593 | a resolved host has each address once and exactly those some successful answer lists; resolution fails exactly when no successful answer lists one |
| Resolution.ResolvedInOrder | src/cli/mod.rs:1549-1594 | the addresses come record type by record type, within each from the resolvers, then DoH, then DoT, each where it first occurs; a literal stands for itself |
| Resolution.DiagnosePool | src/cli/diagnose.rs:288-356 | the pool of one target: gathered, de-duplicated, scoped to the family and sorted; empty when nothing is left |
| Net.SocketRankOrders | src/cli/diagnose.rs:356-400 | the address order of the sorts is (family, address, port), and tells addresses apart |
| Sorting.SortByKeyStable | src/cli/diagnose.rs:496-499 | the stable sort is sorted and keeps the order inside each key |
| Sorting.SortByKeyUpToOrder | src/probe.rs:367-381 | when distinct elements have distinct keys, the sorted list depends on the multiset alone |
| CivilDate.DaysRoundTrip | src/report.rs:924-939 | every day number is a valid Gregorian date that `days_from_civil` maps back to it |
| CivilDate.CivilRoundTrip | src/report.rs:414-422 | every valid date survives the trip through its day number |
| CivilDate.NextDayFollows | src/report.rs:414-422 | the next calendar day, leap rules included, has the next day number |
| CivilDate.Epoch | src/report.rs:412-422 | 1970-01-01 is day 0, which with the previous row fixes every day number |
| CivilDate.DaysIncrease | src/report.rs:414-422 | day numbers order dates exactly as (year, month, day) does |
| Expiry.DaysUntilPrinted | src/report.rs:354-367 | the day reader recovers the day of every printed timestamp up to year 9999 |
| Expiry.InPastPrinted | src/report.rs:324-347 | the second reader recovers every printed timestamp: in the past exactly when not after now |
| Expiry.BareDate | src/report.rs:354-367 | a date without a time is read as its day; a shorter text is not read |
| Expiry.NotAfterVerdict | src/diagnostics/layer.rs:376-432 | expired exactly from that very second on, expiring up to thirty days ahead, silent before |
| Expiry.NotBeforeVerdict | src/diagnostics/layer.rs:347-375 | not yet valid exactly when the day of `notBefore` is after today |
| Expiry.ReadersAgree | src/report.rs:281-300 | `render_cert` and `certificate_lifetime_rules` say the same about every certificate, whatever its text is |
| Expiry.LongYearMisread | src/report.rs:354-358 | a year of more than four digits is not read, or read as a much earlier day |
| Expiry.ExpiryExact | src/tls.rs:474-492 | over every 64-bit timestamp, the expiry verdict is right at every "now" if and only if the timestamp lies between 1970 and the end of year 9999 |
| Expiry.NotBeforeExact | src/diagnostics/layer.rs:347-375 | over every 64-bit timestamp, the not-yet-valid verdict is right to the day at every "now" if and only if the timestamp lies before the end of year 9999 |
| Expiry.PrintedExample | src/tls.rs:474-492 | the last second of a leap day, as it is printed |
| DnsName.ReadName | src/dns.rs:1152-1200 | the loop with its position, hop count and end marker computes the recursive reading of the name, on any bytes and any start |
| DnsName.WalkAccepts | src/dns.rs:1152-1200 | `read_name` accepts exactly the names whose resolution follows at most eight pointers, and ends where the name ends in the message |
| DnsName.WalkSpells | src/dns.rs:1152-1200 | what `read_name` returns is what the name spells with its pointers followed, as section 4.1.4 of RFC 1035 defines it |
| DnsName.ReadNameBounds | src/dns.rs:1152-1200 | on success start < end <= length, labels have 1 to 63 bytes, at most eight pointers were followed, and the name is at most nine times as long as the message |
| DnsName.ValidateName | src/dns.rs:1236-1265 | the loop and its recursion compute the recursive validation |
| DnsName.ValidationAccepts | src/dns.rs:1236-1265 | `validate_name` at a depth accepts exactly the names with that many pointers to spare |
| DnsName.SkipName | src/dns.rs:1205-1233 | the loop computes the recursive skip |
| DnsName.SkipAccepts | src/dns.rs:1205-1233 | `skip_name` accepts exactly the names of at most nine pointers, ending where they end |
| DnsName.WalkersAgree | src/dns.rs:1152-1265 | whatever `read_name` decodes `skip_name` steps over, to the same position; it accepts a name `read_name` refuses exactly when that name takes nine pointers |
| DnsName.WalkersDiffer | src/dns.rs:1158-1237 | a message on which the two walkers differ |
| DnsMessage.BuildQuery | src/dns.rs:937-971 | the loop over the labels builds the query of section 4.1 of RFC 1035, and fails exactly on an empty or over-long label |
| DnsMessage.QueryRoundTrip | src/dns.rs:937-971 | `read_name` at byte 12 gives the host minus one trailing dot and ends four bytes before the end; the length is the name's plus 18; type and class stand at the end |
| DnsMessage.QueryInjective | src/dns.rs:937-971 | two queries are equal only for the same stripped name and the same type |
| DnsMessage.QueryBytes | src/dns.rs:937-971 | the twelve bytes of the header, and for each of the ten types the four bytes the query ends in |
| DnsMessage.QueryRefused | src/dns.rs:944-953 | a host is refused exactly when one of its labels is empty or longer than 63 bytes; one trailing dot makes no difference |
| DnsMessage.QueryExample | src/dns.rs:937-971 | the address query for `a.b`, byte by byte |
| DnsResponse.ReadTxt | src/dns.rs:1133-1146 | the loop joins the character-strings, and fails exactly when one overruns the data |
| DnsResponse.DecodeRecord | src/dns.rs:1031-1121 | one record of each of the ten types, its length guards and its errors |
| DnsResponse.ReadAnswer | src/dns.rs:1011-1121 | one answer: its fixed part, its length guards, its TTL if wanted and its record |
| DnsResponse.ParseDnsResponse | src/dns.rs:996-1129 | the two loops and their early returns compute the recursive parse, on any bytes |
| DnsResponse.PlainText | src/dns.rs:1152-1200 | the text of a name: its labels with dots between them, a single dot for the root |
| DnsResponse.LengthGuards | src/dns.rs:1031-1121 | data of a wanted type is stepped over exactly when it is too short, or an address of the wrong length; a CAA tag that overruns its data is an error |
| DnsResponse.HeaderExactly | src/dns.rs:996-1005 | a short header is reported exactly below twelve bytes; without questions and answers nothing else is read |
| DnsLayout.ParseReadsBack | src/dns.rs:996-1129 | for every list of answers laid out behind header and question, names in the data pointing anywhere in the message, the parse returns exactly the wanted records in order, the first wanted TTL, and whether there was a CNAME |
| DnsLayout.NameReadsBack | src/dns.rs:1152-1200 | a name closed by the root, or by a pointer to any name that resolves within seven more, reads back as its labels and what the pointer spells, and ends behind its own bytes |
| DnsLayout.DataReadsBack | src/dns.rs:1031-1121 | well-formed data of every wanted type decodes to its record |
| DnsLayout.QuestionSpelled | src/dns.rs:1152-1200 | a pointer to byte 12 spells the question's name |
| DnsLayout.TtlOfFirstAnswer | src/dns.rs:980-1026 | the reported TTL is that of the first answer exactly when that answer is wanted or the first wanted one carries an equal TTL |
| DnsLayout.AliasFirst | src/dns.rs:980-1026 | a response with an alias first, whose reported TTL is not that of the first answer |
| DnsLayout.TypeBytes | src/dns.rs:1031-1042 | the two type bytes of a laid-out answer of each of the ten types, and which wanted type it answers |
| DnsLayout.AnswerBytes | src/dns.rs:1011-1030 | a laid-out answer byte by byte: the pointer to the question, then type, class, TTL and length, high byte first |
| DnsLayout.CutShort | src/dns.rs:996-1030 | a response cut short anywhere before the end of its last answer is refused |
| Base64Url.EncodeBase64Url | src/dns.rs:1268-1285 | the loop over chunks of three computes the recursive encoding |
| Base64Url.RoundTrip | src/dns.rs:1268-1285 | the strict unpadded decoder of section 5 of RFC 4648 undoes the encoding of every byte string |
| Base64Url.DecodesOnlyEncodings | src/dns.rs:1267-1285 | that decoder accepts nothing but encodings |
| Base64Url.Length | src/dns.rs:1268-1285 | four letters for every three bytes rounded up, and only letters of the alphabet |
| Base64Url.TestVectors | src/dns.rs:1268-1285 | test vectors of section 10 of RFC 4648 |
| Base64Url.DohParameter | src/dns.rs:476-476 | the DoH parameter decodes to the exact query, and two lookups share one exactly for the same stripped name and type |
| Latency.LatencyStats.Push | src/model/latency.rs:17-19 | one sample more, at the end |
| Latency.LatencyStats.Summarize | src/model/latency.rs:75-121 | the summary the lemmas below are about |
| Latency.PercentileIsNearestRank | src/model/latency.rs:62-73 | for every p in (0, 100] the reported sample v has at least p percent of the samples at or below it and fewer than p percent below it |
| Latency.NearestRankGrows | src/model/latency.rs:109-120 | that value is unique, and grows with p |
| Latency.PercentileEdges | src/model/latency.rs:64-72 | absent exactly without samples or outside [0, 100]; 0 is the minimum and 100 the maximum |
| Latency.SummaryOrdered | src/model/latency.rs:75-121 | min <= p50 <= p90 <= p95 <= p99 <= max, and min <= mean <= max |
| Latency.SummaryFigures | src/model/latency.rs:75-121 | p50, p90, p95 and p99 are the nearest ranks for 50, 90, 95 and 99 percent, min and max the extremes, and the mean is the quotient rounded down |
| Latency.JitterBounded | src/model/latency.rs:89-107 | the jitter is the integer part of the population deviation about the exact mean, and twice it is at most max - min |
| Latency.JitterExact | src/model/latency.rs:89-107 | in whole numbers: the jitter times n is the root of n times the sum of squares less the square of the sum, rounded down to a multiple of n |
| Latency.SummaryPermutation | src/model/latency.rs:75-121 | every figure depends only on which latencies were seen, not on their order |
| Tally.SortedEntries | src/probe.rs:357-381 | whatever order the hash map yields its entries in, the sorted list is the same function of the counted keys |
| Tally.TallyTotal | src/probe.rs:356-360 | the counts add up to the number of keys counted |
| Repeat.RepeatAttempts | src/probe.rs:327-398 | the loop with its counters and hash maps computes the aggregate of the attempts |
| Repeat.FailureRankOrders | src/probe.rs:361-368 | the failure order is count descending, then declaration order, and ties nothing else |
| Repeat.ListsExact | src/probe.rs:357-381 | every failure kind and every status that occurred is listed once, with its exact count, most frequent first, ties in the fixed order |
| Repeat.AttemptsConserved | src/probe.rs:327-398 | latency count equals successes, failure counts sum to failures, and successes plus failures are the attempts exactly when no attempt failed without a kind |
| Repeat.HttpAttemptsConserved | src/probe.rs:308-318 | outcomes of HTTP observations always add up, a stalled body included |
| Repeat.HttpCounts | src/probe.rs:291-318 | successes are the completed responses; a response whose body stalled still counts in the statuses and in the time to first byte |
| Repeat.FiguresExact | src/probe.rs:327-398 | for every value: a success counts with its latency, zero when it has none, a failure with its kind, statuses and first bytes in either case; the rate is successes per attempt |
| Repeat.HttpFiguresExact | src/probe.rs:308-318 | the same for HTTP attempts: a stalled body counts as a timeout and keeps status and first byte, a failure keeps neither |
| Repeat.KindsInOrder | src/model/mod.rs:40-60 | the declaration order that breaks ties |
| Repeat.AggregatePermutation | src/probe.rs:327-398 | but for the raw samples the report depends only on the multiset of outcomes |
| DnsRepeat.AggregateRepeat | src/dns.rs:156-197 | the loop computes the row of one resolver |
| DnsRepeat.LookupsConserved | src/dns.rs:156-197 | every observation is counted once; with one observation an attempt the row adds up exactly when every observation has a latency or an error; missing observations count as failures without a kind |
| DnsRepeat.ResolveRepeat | src/dns.rs:120-150 | the nested loops group the observations of all rounds by resolver, one row each, sorted by label |
| DnsRepeat.RowConserves | src/dns.rs:120-197 | a resolver that answers or fails once in every round has a row that adds up to the attempts |
| DnsRepeat.LeastIsLeast | src/dns.rs:161-164 | the reported TTL is the least one seen |
| DnsRepeat.RowExact | src/dns.rs:156-197 | for every value: lookups with a latency are the successes, whatever else they carry, the others count with their error; the rate is successes per attempt |
| DnsRepeat.RowTtl | src/dns.rs:161-164 | the TTL of a row is the least that any of its lookups carried |
| DnsRepeat.RowsByResolver | src/dns.rs:120-144 | every resolver that was observed has one row, which carries its name |
| DnsRepeat.RowPermutation | src/dns.rs:156-197 | a row depends only on which observations its resolver made |
| DnsRepeat.TablePermutation | src/dns.rs:120-150 | when a resolver makes at most one observation a round and labels differ, the whole sorted table is the same whatever order the observations of each round arrive in |
| ReachabilityRules.DnsRules | src/diagnostics/dns.rs:12-102 | resolution failed exactly when some forward lookup failed and none succeeded; resolvers disagree exactly when two of them answered with different address sets |
| ReachabilityRules.ConnectivityRules | src/diagnostics/connectivity.rs:8-101 | total loss or partial connectivity, unless nothing failed or every failure is a missing local route |
| ReachabilityRules.FamilyRules | src/diagnostics/connectivity.rs:105-197 | the address-family verdict: two families of which one is down, or one family that is down for want of a local route |
| ReachabilityRules.SilentFailures | src/diagnostics/connectivity.rs:66-169 | both TCP rules are silent about a failure exactly when it is a missing local route and the families give no contrast |
| ReachabilityRules.FilteringRules | src/diagnostics/filtering.rs:12-137 | the step-by-step signal count is the sum of the six signals |
| LayerRules.TlsLayerRules | src/diagnostics/layer.rs:9-35 | a verdict exactly when a handshake failed on a destination TCP reached |
| LayerRules.CertificateLifetimeRules | src/diagnostics/layer.rs:324-434 | the guarded push loop reports each cause (name, subject, verdict, days) once, in order of appearance |
| LayerRules.CertificateCoverageRules | src/diagnostics/layer.rs:442-498 | each uncovered (name, subject) once, without names or not matching |
| CertNames.SanCoversExactly | src/report.rs:245-263 | a wildcard covers exactly the names that put one left-most label before its suffix, any other name only itself, whatever the case |
| CertNames.AddressCoverage | src/report.rs:245-252 | an address is covered exactly by an alternative name that is the same address, brackets aside |
| CertNames.NameCoverage | src/report.rs:253-262 | a name is covered exactly by an alternative name that is the same but for letter case, or by a wildcard whose suffix is what follows its first dot |
| LayerRules.HttpLayerRules | src/diagnostics/layer.rs:38-93 | a verdict exactly when some row failed on its own account without a TCP failure, or answered 400 or above |
| LayerRules.RedirectRules | src/diagnostics/layer.rs:506-542 | a verdict exactly when some row succeeded with 301, 302, 303, 307 or 308 |
| LayerRules.TruncatedBodyRules | src/diagnostics/layer.rs:101-125 | a verdict exactly when some response has a status but no completed body |
| LayerRules.QuicRules | src/diagnostics/layer.rs:128-153 | a verdict exactly when some row succeeded below 400, HTTP/3 was tried and every HTTP/3 row failed |
| LayerRules.IntermittentRules | src/diagnostics/layer.rs:156-189 | one verdict for each destination with both successes and failures |
| LayerRules.HttpStatusFlappingRules | src/diagnostics/layer.rs:198-254 | one verdict for each destination without failures whose statuses are both inside and outside 2xx |
| LayerRules.LatencyInstabilityRules | src/diagnostics/layer.rs:264-316 | one verdict for each destination without failures whose p95 is at least three times its median, the median counting as one millisecond at least |
| HttpConsistency.ProtocolsDiverge | src/diagnostics/layer.rs:560-593 | the grouped test by set size holds exactly when two protocols disagree on one destination |
| HttpConsistency.FamiliesDiverge | src/diagnostics/layer.rs:601-623 | both families answered, and exactly one of them ever with content |
| HttpConsistency.AddressesDiverge | src/diagnostics/layer.rs:669-700 | the nested map holds the last status for each protocol and destination, and the test finds two addresses of one protocol and family that ended differently |
| HttpConsistency.HttpConsistencyRules | src/diagnostics/layer.rs:557-721 | one verdict for each of the three divergences that holds |
| HttpOrder.Unsettled | src/diagnostics/layer.rs:669-700 | rows that are not settled can be ordered so that the cross-address verdict appears, and so that it does not |
| HttpOrder.UnsettledExample | src/diagnostics/layer.rs:669-700 | rows that are not settled: 200 and 500 from one address, 200 from another |
| HttpOrder.OneRowEachSettles | src/diagnostics/layer.rs:673-680 | one completed row for each protocol and destination settles the rows |
| Diagnosis.Diagnose | src/diagnostics/mod.rs:45-76 | the fifteen rules in order, and the healthy verdict when none spoke |
| Verdicts.ResolutionReported | src/diagnostics/dns.rs:59-99 | resolution is reported failed, high and with high confidence, exactly when a forward lookup failed and none succeeded; a disagreement, low, exactly when one resolver gave an address another that answered never gave |
| Verdicts.LossReported | src/diagnostics/connectivity.rs:16-101 | total loss, high, exactly when no TCP probe succeeded and some failure is not a missing local route; partial connectivity, medium, exactly when some probe succeeded beside such a failure; with high confidence exactly when several probes failed |
| Verdicts.FamiliesReported | src/diagnostics/connectivity.rs:105-197 | the family verdict, exactly when both families were probed and one answered, or one was probed and every probe failed for want of a local route |
| Verdicts.HandshakesReported | src/diagnostics/layer.rs:9-35 | the TLS verdict, exactly when a handshake failed at a destination TCP reached |
| Verdicts.CertificatesReported | src/diagnostics/layer.rs:324-498 | how often each certificate verdict is given: once for each certificate that has ended, ends within thirty days, starts on a later day, or does not cover its name |
| Verdicts.ResponsesReported | src/diagnostics/layer.rs:38-125 | the low HTTP verdict, once for own failures or error statuses, once for redirects, once for bodies that never completed |
| Verdicts.DifferencesReported | src/diagnostics/layer.rs:557-721 | the other HTTP verdict, once for two protocols, once for two families and once for two addresses that got different answers, the last row of each deciding |
| Verdicts.QuicReported | src/diagnostics/layer.rs:128-153 | the QUIC verdict, exactly when some row succeeded below 400 and HTTP/3 was tried and always failed |
| Verdicts.RepeatsReported | src/diagnostics/layer.rs:156-316 | how often the two repeat verdicts are given: once for each destination with both outcomes, with flapping statuses, or with an unstable latency |
| Verdicts.FilteringReported | src/diagnostics/filtering.rs:12-137 | possible filtering, exactly with two of the six signals, with medium confidence from the fourth on, the signals spelled out on the rows |
| Verdicts.NothingElseSaid | src/diagnostics/mod.rs:45-76 | the engine gives no verdict outside eighteen, or the healthy one alone |
| Verdicts.VerdictsInOrder | src/diagnostics/mod.rs:45-76 | the verdicts come in the order of the rules |
| Diagnosis.OneVerdictDecides | src/diagnostics/mod.rs:45-76 | reordering the observations changes the multiset of verdicts exactly when it changes the cross-address one |
| Diagnosis.OrderIrrelevantExactly | src/diagnostics/mod.rs:45-76 | the multiset of verdicts is the same for every order of every list exactly when the HTTP rows are always split or never split |
| Unreachability.ConnectivityUntouched | src/diagnostics/connectivity.rs:16-79 | locally unreachable TCP rows, whatever the other lists hold, never add or remove a total-loss or partial verdict; medium becomes high confidence exactly when a single address had failed on the path before |
| Unreachability.QuicOnlyKept | src/diagnostics/filtering.rs:65-86 | failing HTTP rows leave the QUIC-only signal as it was exactly unless they are the first over HTTP/3 and another protocol succeeded |
| Unreachability.FilteringMoves | src/diagnostics/filtering.rs:22-136 | the filtering verdict changes exactly when the QUIC-only signal appears in that way with one or three signals before |
| Unreachability.UnreachableAddressesIrrelevant | src/diagnostics/connectivity.rs:16-67 | for the whole engine: addresses known only through local unreachability never change whether total loss or partial connectivity is reported, and change whether filtering is exactly when the QUIC-only signal appears as the second |
| Unreachability.FilteringCanAppear | src/diagnostics/filtering.rs:69-86 | an input on which that happens |
| Reporting.ReportedBy | src/diagnostics/mod.rs:45-76 | which rule speaks for which category; a healthy verdict stands alone |
| Reporting.UnreportedFailures | src/diagnostics/connectivity.rs:61-197 | no rule reports total loss, partial connectivity or an address family although a TCP probe failed, exactly when every failure is a missing local route and the families give no contrast |
| Reporting.HealthyExactly | src/diagnostics/mod.rs:63-75 | the engine says healthy exactly when every TCP failure is a missing local route without a contrast of families and no list gives any other rule a cause, each condition spelled out on the observations |
| Reporting.FailureCalledHealthy | src/diagnostics/mod.rs:63-75 | a failed TCP probe is called healthy exactly when every failure is a missing local route, the families give no contrast, and no list gives any other rule a cause |
| Reporting.FailureCalledHealthyOnTcp | src/diagnostics/connectivity.rs:26-28 | on TCP rows alone, where success means no failure (src/model/tcp.rs:7-9), the first two conditions are enough |
| Reporting.UnroutedIsHealthy | src/diagnostics/connectivity.rs:123-124 | a resolved host of both families, neither with a local route, is called healthy |
| Reporting.FilteringIsCautious | src/diagnostics/filtering.rs:111-136 | filtering is reported exactly with two signals or more, of low severity and never with high confidence |
| Reporting.HighExactly | src/diagnostics/mod.rs:45-76 | the engine answers with high confidence exactly when no forward lookup succeeded though one failed, at least two TCP probes failed and one of them on the path, a certificate has expired, a repeat is intermittent, flapping or unstable, or all is well; apart from the healthy verdict, exactly in the first four cases |
| Reporting.HighFromOneType | src/model/diagnosis.rs:19-24 | for each observation list alone, exactly when it makes the engine answer with high confidence, the healthy verdict included |
| Reporting.AlarmFromOneType | src/model/diagnosis.rs:19-24 | apart from the healthy verdict, whenever high confidence is claimed one observation list alone makes the engine claim it, and the HTTP rows alone never do |
| Reporting.HighWithoutOneType | src/model/diagnosis.rs:19-24 | with one list taken away the engine still answers with high confidence exactly when another list raises the alarm or all is well in what is left |
| Reporting.AlarmCarriedAlone | src/model/diagnosis.rs:19-24 | apart from the healthy verdict, taking one list away takes the claim away exactly when that list carried it and no other did |
| Reporting.HighFromNothing | src/diagnostics/mod.rs:63-75 | without any observation the answer is the healthy verdict, with high confidence |
| Reporting.HighFromOneObservation | src/diagnostics/dns.rs:59-82 | one failed lookup is enough for a fault reported with high confidence |
| Reporting.OneVerdictPerCause | src/diagnostics/layer.rs:162-189 | a guarded push loop reports as many verdicts as there are distinct causes |
| HttpBody.Accumulator.PushBoundedBody | src/http_common.rs:192-208 | from any state, one chunk adds what the cap leaves of it to the copy and, as far as it goes, to the snippet; the answer says whether the cap is reached |
| HttpBody.PushKeepsBody | src/http_common.rs:177-208 | one chunk takes the state a stream should leave to the state the longer stream should leave |
| HttpBody.AnyChunking | src/http_common.rs:177-208 | however a body is cut, pushing all chunks leaves the prefix up to the cap, its first 1024 bytes, and its length |
| HttpBody.PushAfterCap | src/http_common.rs:199-207 | pushing on after the cap was reported changes nothing |
| HttpBody.ReadBody | src/http3.rs:386-438 | the read loop with its early exit gives the report of the whole stream |
| HttpBody.ChunkingIrrelevant | src/http3.rs:398-420 | for a positive cap the report depends on the bytes and the ending alone |
| HttpBody.CappedAtTheEnd | src/http3.rs:415-436 | a body counts as capped exactly when it holds at least the cap, so also when it ends there |
| HttpBody.BodyHeld | src/http_common.rs:177-208 | the report holds the body cut at the cap, if it is to be kept, the first 1024 bytes of that, and the number of bytes counted |
| HttpBody.FailureExactly | src/http3.rs:398-420 | a stream that breaks is a failure exactly when it broke before the cap was reached |
| HttpBody.CappedMeansCut | src/model/http.rs:42-47 | the flag tells a cut body from one that ended, as documented, exactly when the body does not end at the cap |
| Authority.FormsAgree | src/http_common.rs:136-173 | the two wire forms agree exactly when the host names its own port or a colon in the bare host means an IPv6 literal |
| Authority.AuthorityRoundTrip | src/target.rs:23-100 | for every port and every name, IPv4 or IPv6 host, parsing the printed authority gives back the port and the host, brackets aside, and both wire forms are identical (section 4.3.1 of RFC 9114) |
| Authority.NamePortParses | src/target.rs:80-91 | a name with a port parses to both |
| Authority.LiteralPortParses | src/target.rs:49-66 | a bracketed literal with a port parses to both |
| Authority.LiteralPrints | src/http_common.rs:111-119 | an IPv6 literal, bare or bracketed, never counts as naming a port |
| Authority.AuthorityPrints | src/http_common.rs:143-158 | a name as it stands, an IPv6 literal in brackets, and the port unless it is zero or the scheme's own, 443 or 80 |
| Authority.ExplicitPortKept | src/http_common.rs:109-119 | a host that names its own port is printed as it stands |
| Authority.ExplicitPortExactly | src/http_common.rs:109-119 | a name or a bracketed literal, a colon and more names a port exactly when the rest is one |
| Authority.WireHostTrims | src/http_common.rs:78-80 | the brackets around a host are dropped, and nothing else |
| Authority.AuthorityExample | src/http_common.rs:143-158 | two authorities spelled out |
| Targets.PaddingIgnored | src/target.rs:23-29 | white space around the text does not matter |
| Targets.EmptyAndUrlsRefused | src/target.rs:35-41 | a URL is refused, and so is white space alone |
| Targets.UnterminatedRefused | src/target.rs:47-64 | a bracket that is never closed |
| Targets.BracketsRefused | src/target.rs:47-64 | a bracket closed at once, or followed by anything but a port in range |
| Targets.UserRefused | src/target.rs:66-77 | a user in front of the host |
| Targets.PortRefused | src/target.rs:79-90 | a single colon must stand between a host and a number in range |
| Targets.HostAccepted | src/target.rs:92-100 | without a colon, or with several, the text is a host at the default port |

## Left out

- Sockets, TLS, QUIC, HTTP and certificate libraries: their results are parameters.
- Timers and the runtime: a probe ends when the scheduler lets it; "now" is one parameter, not before 1970.
- A panic of a target task of the outer `diagnose` map; a panicking probe or lookup is modelled.
- The clap argument trees, colours, progress counters and the human, CSV and JSON renderings.
- Verdict texts, evidence and cause lists; where a text is a de-duplication key, the key is the tuple printed into it, taken as injective.
- The IP address parser and Unicode: parsing an address is a parameter, white space and letter case are ASCII, and DNS text stays bytes instead of lossily decoded UTF-8.
- The presentation of DNS names, the text an SOA record is printed as, and resolvers that are not asked over the wire codec.
- Machine integers: widths are modelled where a parse or a cast depends on them (ports, statuses, record fields, 64-bit timestamps); sums and day arithmetic are unbounded, so overflow on hand-made timestamps is not.
- Floating point: percentages, means, variances and rates are exact, and the jitter is the integer square root.
- Latency.LatencyStats.Summarize: samples are naturals without the 64-bit bound, because sums are exact at any width.
- DnsRepeat.ResolveRepeat: the text order of resolver labels is an arbitrary key.
- Sweep.EveryScheduleAgrees: the sweep is a step system on values, because the source interleaves tasks; the vectors it sorts in place are sequences there.
- Traceroute, the resolver client, `aggregate_runs`, the lookup tables and the flag validators: outside the five parts modelled.
