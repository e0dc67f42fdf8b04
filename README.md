# Network traffic analyzer of the CyberNeXus-Q dashboard, in Dafny

CyberNeXus-Q is a single-page operator dashboard. Its one piece of real logic
is the network traffic scan on the network tab:

- The counter source reads eight cumulative interface counters and a monotonic
  timestamp. The counters are bytes and packets sent and received, plus input
  and output errors and drops.
- The analyzer compares two such readings. It rejects missing or malformed
  input and intervals of 0.1 s or less. It clamps every counter delta at zero
  so that a counter reset does no harm, and divides each delta by the interval.
  It then flags input and output error rates above 5/s and drop rates above
  10/s.
- The byte formatter shows byte counts and byte rates in B, KiB, MiB, GiB or
  TiB.
- The scan itself keeps one slot of session state, the previous reading. It
  fills the slot on activation, shifts each new reading into it after
  analyzing, and clears it on deactivation.

This project models those parts, plus two pure helpers from the same file:
the order in which interfaces are listed, and the exposure classification of
well-known listening ports in the security audit.

Modules, one per file:

- `Wrappers`: `Option`, for a reading that may have failed.
- `ByteFormat`: the byte formatter. `FormatBytes` is the source's loop.
  `Humanize` is a reference definition written as a cascade of thresholds.
  The method is proved equal to the function, and the unit bounds are proved
  about the function.
- `TrafficAnalysis`: the analyzer. It returns a datatype instead of the
  markdown message: one constructor per early return, and for a completed
  analysis a `Report` with the verdict, interval, long-interval flag, deltas,
  rates, bit rates, formatted byte rates and the list of anomalies.
- `TrafficScan`: the class `Scan`, whose fields are the two session-state
  entries (`running` and `prev`). Its methods `Activate`, `Tick` and
  `Deactivate` model the three branches of the network tab's scan block, and
  `Pass` models one pass through that block.
- `InterfaceOrder`: the interface sort key and Python's tuple and string order.
- `PortAudit`: classification of the well-known cleartext and remote-access
  ports into public and localhost exposure, with the verdicts and
  recommendations derived from it.

Modelling choices:

- Counters are unbounded integers and timestamps and rates are reals, so every
  threshold comparison is exact.
- An argument of the analyzer is `None`, some other non-dictionary object
  (truthy or not), or a dictionary. A dictionary is given by its set of keys
  and the values of the nine fields it may hold. This keeps every early return
  of the analyzer reachable in the model.
- The thresholds are the constants the code hard-codes: 5 errors/s, 10 drops/s,
  0.1 s and 60 s.

Notes on the code's behaviour, which the model follows:

- The code accepts any integer counters and only clamps the deltas. It does not
  reject a reading with a negative counter.
- The thresholds are fixed constants, not tunable parameters.
- A pass that analyzes a pair always makes the current reading the previous
  one, even when the interval was too short. The activation pass compares the
  baseline with a reading taken moments later in the same pass, so in practice
  it reports "interval too short".
- The two invalid-format results are styled as successes. The styling is
  picked by searching the message for phrases, and neither message contains
  one. The counter source always produces all nine keys, so a tick never
  reaches these results (`SourceSnapshotsAreWellFormed`).

## Model

| member | source | states |
|---|---|---|
| `ByteFormat.Humanize` | cybernexus_q.py:1133-1144 | the sentinel is returned exactly for a missing, non-numeric or negative size; bytes are shown only for sizes below 1024, as the whole part of the size; any other unit is not B, and its amount times 1024 to the unit's index gives back the size |
| `ByteFormat.FormatBytes` | cybernexus_q.py:1133-1144 | the loop that divides by 1024 while the value is at least 1024 and a larger unit remains shows exactly what the threshold reference `Humanize` shows, for every input |
| `ByteFormat.UnitFor` | cybernexus_q.py:1138-1141 | the chosen unit index never exceeds 4 (TiB) |
| `ByteFormat.UnitForUnique` | cybernexus_q.py:1139-1141 | only one unit index holds a size: at least one whole unit (unless B) and under 1024 units (unless TiB); this is the index the formatter's loop stops at |
| `ByteFormat.HumanizeBounds` | cybernexus_q.py:1136-1144 | a size is shown in bytes if and only if it is below 1024, as a whole number in [0, 1024); a larger unit shows an amount of at least 1, and below 1024 unless the unit is TiB |
| `ByteFormat.UnitMonotone` | cybernexus_q.py:1139-1141 | a larger size is never shown in a smaller unit |
| `ByteFormat.HumanizeExamples` | cybernexus_q.py:1133-1144 | 0 is "0 B", 1536 is 1.5 KiB, -5 is the sentinel, 1023.9 is "1023 B", and 1024 TiB stays in TiB as 1024.0 |
| `TrafficAnalysis.AsArg` | cybernexus_q.py:1119-1125 | a reading of the counter source is a non-empty dictionary with all nine required keys, holding that reading's values |
| `TrafficAnalysis.AnalyzeNetworkTraffic` | cybernexus_q.py:1147-1158 | insufficient data if and only if either argument is missing or empty; otherwise invalid format if and only if either is not a dictionary; otherwise missing keys if and only if either lacks one of the nine keys; only past these checks are the two readings compared |
| `TrafficAnalysis.ClampedDiff` | cybernexus_q.py:1166-1173 | a delta is never negative; it is the increase when the counter did not go down, and zero when it went down |
| `TrafficAnalysis.Deltas` | cybernexus_q.py:1166-1173 | each of the eight deltas is the clamped difference of that counter alone |
| `TrafficAnalysis.Rate` | cybernexus_q.py:1178-1183 | a rate times the interval gives back the count; a zero count has rate zero and a non-negative count a non-negative rate |
| `TrafficAnalysis.PerSecond` | cybernexus_q.py:1178-1183 | each of the eight rates is that counter's delta per second of the interval |
| `TrafficAnalysis.Megabits` | cybernexus_q.py:1176-1177 | the bit rate times the interval times one million equals the byte delta times 8 |
| `TrafficAnalysis.Check` | cybernexus_q.py:1190-1193 | a check lists its condition, with its rate, if and only if the rate is strictly above the threshold |
| `TrafficAnalysis.DetectAnomalies` | cybernexus_q.py:1186-1193 | only conditions whose rate exceeds the threshold are listed, each with its own rate, at most once each, in the order input errors, output errors, input drops, output drops |
| `TrafficAnalysis.FiringConditionListed` | cybernexus_q.py:1190-1193 | a condition is listed if and only if its rate exceeds its threshold, whatever the other rates: the four checks are independent and cumulative |
| `TrafficAnalysis.NoAnomalyIffNoneFires` | cybernexus_q.py:1190-1193 | the list is empty exactly when no rate exceeds its threshold |
| `TrafficAnalysis.AnalyzeSnapshots` | cybernexus_q.py:1160-1205 | the result is "interval too short" if and only if the interval is 0.1 s or less; otherwise the report carries the interval, notes it as long if and only if it exceeds 60 s, lists the anomalies detected from its rates, and says anomaly if and only if that list is non-empty |
| `TrafficAnalysis.BuildReport` | cybernexus_q.py:1162-1205 | the report holds the given deltas, their rates per second, the two bit rates, the byte rates as the formatter shows them, the detected anomalies, and the verdict matching whether that list is non-empty |
| `TrafficAnalysis.AnalyzedRates` | cybernexus_q.py:1166-1183 | in every completed analysis each delta is the clamped difference of its counter, so non-negative; a counter that did not go down has as its rate its increase per second of the interval; a counter that went down has rate zero |
| `TrafficAnalysis.VerdictIffThresholdExceeded` | cybernexus_q.py:1186-1205 | the verdict is anomaly if and only if some error or drop rate exceeds its threshold, and stable if and only if none does |
| `TrafficAnalysis.SourceSnapshotsAreWellFormed` | cybernexus_q.py:1150-1158 | two readings of the counter source always pass the input checks and are compared directly |
| `TrafficAnalysis.FirstCallInsufficient` | cybernexus_q.py:1150-1151 | with no previous reading the result is insufficient data, whatever the current argument |
| `TrafficAnalysis.NoBackwardOrZeroInterval` | cybernexus_q.py:1160-1161 | identical or backward timestamps give "interval too short", so no rate is computed over a zero or negative interval |
| `TrafficAnalysis.ResetAffectsOnlyItsCounter` | cybernexus_q.py:1166-1183 | replacing one current counter by a value below its previous one makes that counter's delta and rate zero and leaves the interval and the other seven deltas and rates unchanged |
| `TrafficAnalysis.RateDeterminedByDelta` | cybernexus_q.py:1178-1183 | a counter's rate depends only on its own delta and the interval |
| `TrafficAnalysis.ThresholdsAreStrict` | cybernexus_q.py:1190-1193 | error rates of exactly 5/s and drop rates of exactly 10/s fire nothing |
| `TrafficAnalysis.StableScenario` | cybernexus_q.py:1160-1205 | over one second, 100000 bytes sent and 50000 received and 100 packets each way, with no errors, give 100000 B/s, 50000 B/s, 100 packets/s each way, 0.8 Mbit/s sent, and a stable verdict with no anomalies |
| `TrafficAnalysis.AnomalyScenario` | cybernexus_q.py:1160-1205 | the same exchange with 20 input errors gives an anomaly verdict listing only a high input error rate of 20/s |
| `TrafficAnalysis.ErrorThresholdBoundary` | cybernexus_q.py:1190 | 5 input errors in one second leave the verdict stable; 6 make it an anomaly |
| `TrafficScan.SeverityOf` | cybernexus_q.py:2294-2296 | an analysis is styled as an alert exactly when it reports an anomaly, and as waiting exactly for insufficient data or a too-short interval |
| `TrafficScan.NextSlot` | cybernexus_q.py:2305-2307 | a successful reading replaces the slot; a failed one leaves it as it was |
| `TrafficScan.TickStatusOf` | cybernexus_q.py:2292-2307 | a pass compares the readings exactly when both the slot and the current reading are present, and then shows the analysis of the pair, its styling and the current totals (the counts, and the sent and received byte totals as the formatter shows them); it reports a failed read exactly when the current reading is missing |
| `TrafficScan.Scan.constructor` | cybernexus_q.py:2281 | a fresh session is not running and holds no reading |
| `TrafficScan.Scan.Activate` | cybernexus_q.py:2281-2284 | activation sets the running flag and puts the baseline reading, or None if it failed, in the slot |
| `TrafficScan.Scan.Tick` | cybernexus_q.py:2288-2307 | a pass while running shows what `TickStatusOf` gives for the old slot and the current reading, and leaves in the slot what `NextSlot` gives, so a stopped scan never holds a reading |
| `TrafficScan.Scan.Deactivate` | cybernexus_q.py:2319-2325 | deactivation clears the running flag and empties the slot |
| `TrafficScan.Scan.Pass` | cybernexus_q.py:2280-2328 | after a pass the scan runs exactly when the toggle is on; turning it on activates with the baseline and then ticks in the same pass; staying on ticks from the old slot; turning it off clears the slot; staying off changes nothing |
| `TrafficScan.LatestReading` | cybernexus_q.py:2305-2307 | the most recent successful reading is one of the readings, or the starting slot when every reading failed |
| `TrafficScan.SlotHoldsLatestReading` | cybernexus_q.py:2292-2307 | after any sequence of passes the slot holds the most recent successful reading, and the starting slot only if every read failed: the scan keeps no history beyond one reading |
| `TrafficScan.ActivationPassWaits` | cybernexus_q.py:2281-2296 | when the baseline and the reading of the same pass are 0.1 s apart or less, the pass shows a waiting message and the slot already holds the newer reading |
| `InterfaceOrder.Rank` | cybernexus_q.py:975-981 | every interface name gets one of the ranks 0, 1, 2, 10 or 99 |
| `InterfaceOrder.KeyLessStrictTotalOrder` | cybernexus_q.py:975-982 | the sort key's order (rank, then Python string order) is irreflexive, transitive and total on distinct names |
| `InterfaceOrder.SortedListingUnique` | cybernexus_q.py:982 | two listings of the same names that are both in key order are identical, so the sorted listing of interfaces is fully determined |
| `InterfaceOrder.EthernetFirst` | cybernexus_q.py:976 | an "eth" interface is listed before any interface whose name does not start with "eth" |
| `InterfaceOrder.LoopbackLast` | cybernexus_q.py:980 | an "lo" interface is listed after every interface whose name does not start with "lo" |
| `InterfaceOrder.WirelessTogether` | cybernexus_q.py:977-978 | "wlan" names and other "wl" names share the wireless rank |
| `PortAudit.Classify` | cybernexus_q.py:1784-1789 | a table's findings are at most as many as its entries and hold a finding for each of its ports that listens anywhere, and nothing else; a finding is public exactly when its port listens on a public address, even if it also listens on loopback |
| `PortAudit.Position` | cybernexus_q.py:1784 | the position of a port is the index of its first entry in the table, or the table's length when it has none |
| `PortAudit.ClassifyInTableOrder` | cybernexus_q.py:1784-1789 | for a table without repeated ports the findings follow table order strictly, so each listening port is reported exactly once |
| `PortAudit.AuditPorts` | cybernexus_q.py:1784-1813 | the findings are the cleartext findings followed by the access findings; the "nothing listening" note appears exactly when there are none; at most two recommendations are added, none twice, any cleartext one before any remote-access one |
| `PortAudit.CleartextVerdict` | cybernexus_q.py:1793-1799 | the cleartext verdict is public if and only if some cleartext port listens on a public address, and "none detected" if and only if no cleartext port listens at all; the advice to secure public cleartext services is given exactly when some cleartext port is public, and the localhost advice exactly when the verdict is localhost |
| `PortAudit.AccessVerdict` | cybernexus_q.py:1801-1808 | the remote-access verdict is public if and only if some access port listens on a public address, and "none detected" if and only if no access port listens at all; hardening advice is given exactly when some access port is public, and the localhost review advice exactly when the verdict is localhost |
| `PortAudit.LoopbackOnlyNeverPublic` | cybernexus_q.py:1776-1808 | with nothing listening on a public address, no finding is public and no public-exposure recommendation is made |
| `PortAudit.MixedExample` | cybernexus_q.py:1784-1808 | SSH on a public address and HTTP on loopback give the findings HTTP localhost then SSH public, a localhost cleartext verdict, a public access verdict, and the two matching recommendations |

## Left out

- Reading the counters is left out: the psutil call and its failure become a parameter (`Option<Snapshot>`). So are the connection table of the audit (its two port sets become parameters) and the interface listing (its names become parameters).
- Floating-point arithmetic is left out. Timestamps, rates and scaled sizes are exact reals, so rounding, NaN and infinities are not modelled. In particular, repeated division by 1024 is taken as exact division by a power of 1024.
- Text rendering is left out: the markdown and emoji messages, `:.1f` and `:,.0f` formatting, and the rendering of the stats table with its wall-clock Time column (the table's figures are kept in `Totals`). The model keeps the numbers, the verdict and the formatter's choice of unit. It keeps the interval flag but not the printed interval.
- The refresh mechanics are left out: `time.sleep(3)`, `st.rerun()`, toasts and widget state. `Scan.Pass` models one pass through the block.
- Field values of a dictionary argument are taken to be numbers. The code raises a `TypeError` when a required field holds a non-number (a `None` timestamp, a string counter); that raising path is not modelled.
- `TrafficScan.Scan.Activate`: requires that the scan is not running, because the dashboard calls it only in that case.
- `PortAudit.AuditPorts`: the recommendation list it adds to is shared with the earlier parts of the audit (crypto readiness, OpenSSL version). Only the two entries the port check contributes are modelled.
- `format_interface_details_psutil` is left out: speed label, address lists and sorted MAC addresses. It only shapes display strings and depends on socket address families that are not modelled.
- The rest of the dashboard is not part of this model: the AI chat and vision client, Pi-hole requests, speed test and external IP lookups, system telemetry, speech, screen capture, login and configuration.
