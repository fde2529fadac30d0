# Memory monitor: threshold and hysteresis model

This project models `memory-monitor.js`, a browser script that samples the
JavaScript heap every `intervalMs` milliseconds and reports to a collector
when usage crosses `thresholdMB`. The model covers:

- start-up: the configuration defaults (`thresholdMB` 400, `reportUrl`
  `/api/memory-report`, `intervalMs` 5000, `warnUser` false, `verbose` false)
  and the guard that stops the script when `performance.memory` is missing;
- the closure flag `hasReported`, owned by a `Monitor` class whose `Tick`
  method is the `monitor()` function and whose `Teardown` method is the
  `beforeunload` handler;
- the hysteresis decision as a pure function (`Hysteresis.Tick`), its effect over
  a sequence of samples (`Hysteresis.Trace`), and the monitor's behaviour over
  a sequence of host events (`MemoryMonitor.Session`), with lemmas about them.

Modules:

- `MonitorConfig` (config.dfy): `Config`, the caller's `ConfigArg`, and the
  defaults in `Effective`.
- `Hysteresis` (hysteresis.dfy): one tick, a trace of ticks, and the
  characterisation of the flag and of the reports over any sample sequence.
- `MemoryMonitor` (monitor.dfy): events, reports, the `Monitor` class, the
  event loop `Drive`, and the whole script `Start`.

Megabyte values are exact `real`s, so `thresholdMB * 0.8` is exactly four
fifths of the threshold. A report is the abstract event "reportToServer was
called with (used, total)". The model records the `reportUrl` it is sent to.
The browser's timer and unload signal become a sequence of `Event`s
(`TickEvent(sample)` or `Unload`) that the caller feeds to the monitor in order.
The JavaScript event loop runs one handler at a time, and the sequence keeps
that order.

The tick's two checks are independent. With a negative `thresholdMB`, one tick
can therefore report and re-arm at once: a sample `u` with
`thresholdMB <= u < 0.8 * thresholdMB` does both. `Hysteresis.LatchesIffNonNegative`
proves that the flag survives every reporting tick exactly when the threshold
is not negative. The sequence-level characterisations assume
`thresholdMB >= 0` for that reason.

## Model

| member | source | states |
|---|---|---|
| MonitorConfig.Effective | memory-monitor.js:4-10 | a falsy configuration gives thresholdMB 400, reportUrl '/api/memory-report', intervalMs 5000, warnUser false, verbose false; in an object, each option that is present is kept as given and each undefined option takes its own default, whatever the other options are |
| MonitorConfig.EmptyObjectIsFalsy | memory-monitor.js:4-10 | an object with every option undefined starts the monitor exactly as a falsy configuration does |
| MonitorConfig.ExplicitRoundTrip | memory-monitor.js:4-10 | naming every option explicitly gives back exactly that configuration |
| Hysteresis.Tick | memory-monitor.js:60-72 | a tick reports iff usedMB >= thresholdMB and the flag was clear; no tick reports while the flag is set; the flag rises only by reporting; a set flag is cleared iff usedMB < 0.8 * thresholdMB; after a report the flag stays set iff usedMB >= 0.8 * thresholdMB, which always holds when thresholdMB >= 0 |
| Hysteresis.LatchesIffNonNegative | memory-monitor.js:60-72 | every reporting tick leaves the flag set exactly when thresholdMB >= 0; below zero one tick can report and re-arm |
| Hysteresis.TraceReportsBounded | memory-monitor.js:60-62 | over any samples there are at most as many reports as ticks, and every reported sample is at or above the threshold |
| Hysteresis.TraceConcat | memory-monitor.js:51-75 | ticking through two stretches of samples one after the other is ticking through their concatenation |
| Hysteresis.StaysLatched | memory-monitor.js:60-72 | once the flag is set, samples at or above 0.8 * thresholdMB report nothing and leave it set, whatever their value |
| Hysteresis.StaysArmed | memory-monitor.js:60-72 | with the flag clear, samples below the threshold report nothing and leave it clear |
| Hysteresis.RiseAndStay | memory-monitor.js:60-72 | usage that rises from below the threshold to at or above it and stays there is reported exactly once, at the first sample at or above it |
| Hysteresis.OscillationReportsOnce | memory-monitor.js:60-72 | with threshold 400, samples [390, 405, 402, 398, 410] yield exactly one report, at 405, and leave the flag set |
| Hysteresis.RecoveryReportsAgain | memory-monitor.js:60-72 | with threshold 400, samples [405, 300, 410] yield two reports, at 405 and at 410 |
| Hysteresis.FlagIsLatched | memory-monitor.js:17-72 | for thresholdMB >= 0 and a flag that starts clear, the flag is set after a sample sequence iff some sample reached the threshold and no later sample fell below 0.8 * thresholdMB |
| Hysteresis.ReportsAreArmedCrossings | memory-monitor.js:17-72 | for thresholdMB >= 0 the reports are exactly the upward crossings made from the re-armed state, in order |
| MemoryMonitor.Step | memory-monitor.js:51-80 | a tick reports (url, used, total) iff used >= threshold and the flag was clear; an alert carrying usedMB is raised iff a tick reports and warnUser is set; a set flag stays set iff used >= 0.8 * threshold; a clear flag becomes set iff the tick reports and used >= 0.8 * threshold; unload reports (url, -1, -1), raises no alert and keeps the flag |
| MemoryMonitor.SessionFlagFollowsTrace | memory-monitor.js:60-80 | unload signals do not affect the flag: after any events it is the flag after their tick samples alone |
| MemoryMonitor.SessionReportCount | memory-monitor.js:60-80 | the number of reports over any events is the number of threshold reports of their ticks plus one per unload signal |
| MemoryMonitor.SessionThresholdReports | memory-monitor.js:60-80 | when thresholdMB > -1, the reports that do not carry the unload sentinel -1 are exactly the threshold reports of the tick samples alone, in order, each sent to reportUrl with its used and total megabytes |
| MemoryMonitor.SessionAlerts | memory-monitor.js:60-66 | the alerts are exactly the used values of the threshold reports when warnUser is set, and there are none otherwise |
| MemoryMonitor.TeardownAlwaysReports | memory-monitor.js:77-80 | an unload after any events adds exactly one report (url, -1, -1) and changes neither the alerts nor the flag |
| MemoryMonitor.Boot | memory-monitor.js:4-15 | start-up yields no monitor exactly when the memory facility is missing, and otherwise the defaulted configuration |
| MemoryMonitor.Lifetime | memory-monitor.js:12-15 | without the memory facility no report and no alert is ever sent, for any events; with it the monitor starts from a clear flag |
| MemoryMonitor.CrossingAt405 | memory-monitor.js:60-67 | with threshold 400 and a clear flag, ticks 390 then 405 send one report, at 405, raise an alert showing 405 exactly when warnUser is set, and set the flag |
| MemoryMonitor.OscillationAfter405 | memory-monitor.js:60-72 | with threshold 400, ticks 402, 398 and 410 after that report send no further report or alert and leave the flag set |
| MemoryMonitor.DefaultOscillationSession | memory-monitor.js:4-80 | with no configuration, ticks [390, 405, 402, 398, 410] then unload produce one report (405) to '/api/memory-report', then the unload report (-1, -1), and no alert |
| MemoryMonitor.Monitor.constructor | memory-monitor.js:17 | a new monitor keeps its configuration and starts with hasReported false |
| MemoryMonitor.Monitor.Tick | memory-monitor.js:51-73 | the report, the alert and the new flag of one tick are those of Step on the old flag |
| MemoryMonitor.Monitor.Teardown | memory-monitor.js:77-80 | the unload handler returns the report (reportUrl, -1, -1) and modifies nothing, so hasReported is unchanged |
| MemoryMonitor.Handle | memory-monitor.js:75-80 | dispatching one host event to Tick or Teardown has exactly the outcome Step gives |
| MemoryMonitor.Drive | memory-monitor.js:75-80 | feeding events to a monitor in order collects the reports, alerts and final flag Session gives |
| MemoryMonitor.Start | memory-monitor.js:3-82 | the script starts iff the memory facility exists, and its reports and alerts are those of Lifetime |

## Left out

- Byte-to-megabyte conversion (`formatMB`, `toFixed(2)`, `parseFloat`) is left out. A tick takes its reading already in megabytes.
- Floating-point arithmetic is left out. `thresholdMB * 0.8` and the comparisons are exact on reals, so a reading within rounding distance of the band edge may be classified differently than in a browser.
- Reading `performance.memory` is a host call. Its result is the `Sample` carried by a tick event.
- The payload fields `userAgent`, `url` and `timestamp` (`navigator`, `window.location`, `Date.now()`) come from the browser. A report keeps only the endpoint and the two megabyte values.
- Transport selection (`sendBeacon` or `fetch`), JSON encoding, the try/catch and the fetch error handler are foreign I/O. None of them can change the flag, and no error reaches the caller, so a report is an event that always happens.
- Console output and the `verbose` flag are logging only. `verbose` is carried in the configuration and affects nothing.
- The blocking `alert` dialog is modelled only as an alert output carrying the used megabytes.
- `setInterval` and `intervalMs` are left out: the timing of ticks is not modelled, only their order in the event sequence. `intervalMs` is carried in the configuration.
- Configuration values of the wrong JavaScript type, including `null`, are not modelled. An option is either given (with the documented type) or `undefined`, and only `undefined` takes the default, as destructuring does.
- MemoryMonitor.SessionThresholdReports: requires thresholdMB > -1. At or below -1 a tick reading of exactly -1 reports (url, -1, -1), the same values as the unload report, so the sentinel cannot tell the two apart. The count (SessionReportCount) and the unload report (TeardownAlwaysReports) still hold there.
