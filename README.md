# AutoOps remediation agent — Dafny model

This project models the closed-loop remediation agent of `agent.py`. The agent
ingests health events into a bounded window and detects anomalies in that window
from a latency z-score and an error rate. It labels the root cause, runs the
first restart step of its workflow document, and re-probes the service using the
parameters of the document's last step. It then evolves the document: after a
success it lowers the latency thresholds, and after a failure it appends a single
`notify_admin` escalation step, snapshotting the stored document before each save.
Finally it clears the window.

Modules, one per component:

- `Common` (common.dfy): `Option`, the escaping exceptions (`Fault`), and `Outcome` (a value or a raised fault).
- `Events` (events.dfy): the `EventWindow` class. It has a `window: seq<Entry>` field and two counters. The file also holds the FIFO specification `Slide`/`Replay` and its lemmas.
- `Detector` (detector.dfy): `analyze_metrics` and `root_cause_reasoning` as pure functions. Latencies are exact reals. The z-score test is stated without a square root.
- `Executor` (executor.dfy): `execute_action` and `verify_recovery` as pure dispatch. The monitored service's answers are parameters:
  - `recover: HttpOutcome` is what `GET /recover` returns;
  - `probe: Value -> HttpOutcome` is what a `GET` of a check path returns.
- `Workflows` (workflows.dfy): the document (`Step`, `Workflow`) and the `WorkflowStore` class. The store holds the current document and the log of snapshots, each with its file name.
- `Evolver` (evolver.dfy): `reflect_and_evolve`. `LowerThresholds` is the step loop. `Evolved` specifies the effect on the store, and `Evolve` is the method that performs it.
- `Agent` (agent.dfy): `run_cycle` as `RunCycle`, the scan for the first restart step as `FindRestart`, and `status` as `Status`.

Behaviours of the code that the model keeps as written:

- The window counter compares the level case-insensitively (`level.lower()`). The detector compares it exactly. `UpperCaseErrorCountedNotFlagged` exhibits the difference.
- Every window entry that has a `"metric"` key contributes a latency: `latency_ms`, or 0 when that key is missing. Entries are not filtered by whether they carry `latency_ms`.
- A snapshot copy that fails is not caught by the code. The model's snapshot never fails; see "Left out".

## Model

| member | source | states |
|---|---|---|
| Events.EventWindow.Ingest | agent.py:134-144 | appends the event's dictionary form, evicts exactly the oldest entry on overflow (`Slide`), adds 1 to `total_count`, adds 1 to `error_count` iff the lower-cased level is "error" or the state is "crashed"; preserves the window invariant (≤ 30 entries, all carrying "metric", errors ≤ total) |
| Events.EventWindow.Clear | agent.py:180-182 | empties the window and sets both counters to 0 |
| Events.AsEntry | agent.py:126-132 | an ingested event always carries its "metric" mapping, level and state |
| Events.Slide | agent.py:137-143 | the new window is a suffix of old window + [event], one longer below capacity and the same length at capacity, so it never exceeds 30 |
| Events.ReplayKeepsNewest | agent.py:137-143 | any run of ingestions from a window within capacity leaves exactly the newest 30 of all entries seen, oldest first (FIFO) |
| Events.WindowHoldsLastEntries | agent.py:137-143 | from an empty window, the window holds the last min(n, 30) ingested entries in arrival order |
| Detector.Latencies | agent.py:44 | the latency series is empty iff no entry has "metric", is no longer than the window, and ends with the newest entry's latency when that entry is measured |
| Detector.LatenciesOfMeasuredWindow | agent.py:44 | when every entry carries "metric" (as ingested ones do), every entry contributes its `latency_ms` (0 if absent), in order |
| Detector.LatestIsNewestMeasured | agent.py:44-51 | `latencies[-1]` is the latency of the newest entry that has a "metric" key |
| Detector.FlaggedCount | agent.py:45 | the number of error flags is between 0 and the window length; 0 iff no entry is crashed or at exact level "error"; all iff every entry is |
| Detector.SquaredDeviation | agent.py:49 | the sum of squared deviations is never negative |
| Detector.Variance | agent.py:48-50 | the population variance is never negative |
| Detector.SpikeTestIsZScore | agent.py:50-54 | the square-root-free test agrees with `(latest - mean) / (std + 1e-6) > 2.0` for std = sqrt(variance) |
| Detector.RateBounds | agent.py:53-54 | the error rate lies in [0, 1], and `rate > 0.15` iff `100 * errors > 15 * n` |
| Detector.Analyze | agent.py:42-55 | `{anomaly: false}` alone iff no entry has "metric"; otherwise latest is the last latency, mean and variance are those of the latency series, the z flag is the spike test on them, the error rate is flagged entries over the whole window and lies in [0, 1], anomaly iff z > 2 or rate > 0.15, a z-spike lies above the mean |
| Detector.AnalyzeIsZScore | agent.py:48-54 | for any window with latencies and std = sqrt(variance), the verdict's anomaly flag equals `(latest - mean) / (std + 1e-6) > 2.0 or error_rate > 0.15` |
| Detector.LatencyOf | agent.py:44 | `latency_ms` when the metric has it, 0 otherwise |
| Detector.Sum | agent.py:48 | the sum of non-negative latencies is non-negative, and a single latency sums to itself |
| Detector.Mean | agent.py:48 | the mean times the number of latencies is their sum |
| Detector.SpikeTest | agent.py:50-52 | a spike lies more than 2·1e-6 above the mean |
| Detector.Flagged | agent.py:45 | an entry the detector flags (crashed, or level exactly "error") is also one the case-insensitive counter counts |
| Events.Lower | agent.py:139 | `level.lower()` on ASCII: same length, each character lower-cased in place |
| Events.CountsAsError | agent.py:139 | counted iff the state is "crashed" or the level is "error" in any mix of upper and lower case |
| Detector.RootCause | agent.py:58-63 | priority: error rate > 0.15 gives "service_crash_or_high_error_rate", else z > 2 gives "latency_spike", else "unknown" |
| Detector.AnomalyHasCause | agent.py:54-63 | an anomalous verdict is never labelled "unknown" |
| Detector.ConstantLatenciesAreQuiet | agent.py:48-52 | a constant series has mean equal to the constant and variance 0, and the epsilon keeps it from being a spike |
| Detector.ErrorRateOutranksSpike | agent.py:53-60 | an error rate above 15% is anomalous and labelled as a crash, whatever the latencies |
| Detector.SpikeExample | agent.py:42-63 | nine 100 ms readings and one 1200 ms reading: mean 210, variance 108900, anomaly, "latency_spike" |
| Detector.ErrorOrCrashIsFlagged | agent.py:45 | an ingested event at level "error" or in state "crashed" is flagged by the detector, and also counted by the window counter of line 139 |
| Detector.OneBadEventInFive | agent.py:42-63 | four healthy readings and one error-or-crash event (any latency): one flag, error rate 0.2, anomaly, labelled "service_crash_or_high_error_rate" |
| Detector.UpperCaseErrorCountedNotFlagged | agent.py:45 | an "ERROR" event counts toward `error_count` (line 139) but is not flagged by the detector |
| Executor.Execute | agent.py:66-81 | ok iff the action is `action_restart_service` and either the method is not "http_restart" or /recover answered at all; "unknown action" otherwise; status code reported iff /recover answered; detail "called /recover" on an answer, the transport error text on a transport error, "simulated restart (no docker)" for another method |
| Executor.MethodOf | agent.py:70 | the "method" parameter when present, "http_restart" otherwise |
| Executor.CheckEndpoint | agent.py:85 | the "check_endpoint" parameter when present, "/" otherwise |
| Executor.ExecuteWithoutCallIgnoresService | agent.py:70-80 | unless the restart goes over HTTP, the result does not depend on the service |
| Executor.Verify | agent.py:84-90 | ok iff the probe of the check path answers exactly 200; status code iff a response, and then the response's status; error iff a transport error, and then its text |
| Executor.VerifyDefaultsToRoot | agent.py:85 | without "check_endpoint" the service root "/" is probed |
| Workflows.Sanitize | agent.py:37 | the reason keeps its length, every space becomes '_', every other character is kept |
| Workflows.SnapshotPath | agent.py:37 | the file name is "workflow_versions/", then the timestamp, then "__" + `Sanitize(reason)`, then ".json", and nothing else (its length is 8 more than the directory, timestamp and reason together) |
| Workflows.HasStep | agent.py:113-114 | the id is in the list of step ids iff some step carries it |
| Workflows.DistinctTimesDistinctFiles | agent.py:35-37 | two snapshots for the same reason at distinct fixed-width timestamps get distinct file names |
| Workflows.SanitizeKeepsPlainReason | agent.py:37 | a reason without spaces is used verbatim |
| Workflows.Snapshotted | agent.py:33-38 | a snapshot appends exactly one version, named from the timestamp and sanitized reason, holding the current document, and leaves the current document alone |
| Workflows.Saved | agent.py:29-31 | a save replaces the current document and keeps the versions |
| Workflows.WorkflowStore.Load | agent.py:25-27 | returns the current document |
| Workflows.WorkflowStore.Save | agent.py:29-31 | the new state is `Saved(old state, wf)` |
| Workflows.WorkflowStore.Snapshot | agent.py:33-38 | the new state is `Snapshotted(old state, reason, ts)` |
| Evolver.Scaled | agent.py:106 | `int(t * 0.95)` computed exactly: 95% of t truncated toward zero, for either sign of t; the float product is not modelled (see Left out) |
| Evolver.LoweredThreshold | agent.py:105-106 | the new threshold is ≥ 80, is 80 exactly when 0.95 t < 81 and otherwise floor(0.95 t); it is ≤ t when t ≥ 80 and < t when t > 80 |
| Evolver.Tightened | agent.py:103-106 | id and type are kept; non-detection steps are unchanged; a detection step gets threshold `LoweredThreshold(t)` (t defaulting to 300) and keeps every other parameter |
| Evolver.TightenAll | agent.py:103-106 | every step is `Tightened`: same step count, ids and types; other steps unchanged; every detection threshold ≥ 80 and not raised when it was ≥ 80 |
| Evolver.ThresholdOf | agent.py:105 | the "latency_threshold_ms" parameter when present, 300 otherwise |
| Evolver.LowerThresholds | agent.py:103-106 | the loop yields `TightenAll(wf)`, or TypeError when some detection threshold is not a number |
| Evolver.Evolved | agent.py:93-123 | raises only on success with a non-numeric threshold; evolved iff success or "notify_admin" absent; an evolution adds exactly one snapshot of the pre-mutation stored document, named from "improved_after_success" or "added_notify_after_failure", and reports the matching note; on success the document is `TightenAll(wf)`; on failure it is wf with the notify step appended; otherwise the store is untouched |
| Evolver.Evolve | agent.py:93-123 | the returned report and the new store state are those of `Evolved` |
| Evolver.SecondFailureChangesNothing | agent.py:110-123 | a first failure appends `notify_admin`; a second failure reports `evolved: false` and leaves the store exactly as it was |
| Evolver.RepeatedSuccesses | agent.py:100-109 | over repeated successes the threshold is ≥ 80 from the first on, never rises again, and is ≤ max(80, t − k) after k cycles |
| Evolver.ThresholdExample | agent.py:105-106 | 300 → 285 → 270 → 256 |
| Agent.FindRestart | agent.py:158-164 | returns the first `action_restart_service` step in document order, or none iff there is none |
| Agent.RunCycle | agent.py:146-183 | no anomaly: returns the verdict and changes nothing. Empty steps: IndexError. No restart step: AttributeError. An anomalous window is never reported as quiet. A successful action and probe with a non-numeric threshold: `Crashed(TypeError)`. A crash changes nothing, and once a restart step exists the only crash is the evolver's TypeError: the cycle completes whenever thresholds are numeric or the action or the verification failed. The window invariant is kept. A completed cycle executes the first restart step, verifies with the last step's params, evolves with success = action.ok ∧ verified.ok, and ends with an empty window and both counters 0 |
| Agent.Status | agent.py:185-188 | returns the window length and the current document, changing nothing |

## Left out

- HTTP is not modelled. The calls to `/recover` and to the check path are parameters. Timeouts and the base URL are not modelled.
- FastAPI routing and pydantic validation are not modelled. The `{"received": True}` acknowledgement of ingestion is not modelled.
- File I/O is replaced by the in-memory `WorkflowStore`. A missing or malformed workflow file, which makes `load_workflow` raise, is not modelled.
- A failing `shutil.copyfile` (which the code does not catch) is not modelled. `utcnow()` is replaced by the timestamp parameter `ts`.
- Two snapshots with the same timestamp and reason overwrite one file in the source. The model's versions log keeps both entries.
- The document is assumed well-formed: `"steps"` is always a list, and every step has `id`, `type` and `params`. A missing `params` on the restart step or the last step is read as `{}` (agent.py:163, 166), which a model step with empty params reproduces. Other omissions make the source raise KeyError or TypeError, and the model does not capture those.
- JSON values are integers or strings only. Floats, booleans, null and nested values are not modelled, so neither is `int(t * 0.95)` on a float threshold.
- Detector.Analyze: does not return the numeric `z` and `std`. A square root is not available, so the verdict carries the variance and the outcome of `z > 2.0` instead. `SpikeTestIsZScore` ties that outcome to the z-score.
- Detector.Analyze: latencies are exact reals. IEEE float rounding of the mean, the variance and the `1e-6` epsilon is not modelled.
- Events.EventWindow.Ingest: lower-cases ASCII letters only. Python's `str.lower` also lower-cases other scripts, but no non-ASCII character lower-cases to a letter of "error", so the test agrees.
- Evolver.Scaled: computes `t * 0.95` exactly. Python multiplies by the nearest double to 0.95 and rounds the product, so from about \|t\| = 2^50 the results can differ by one (t = 1397496546538421 gives 1327621719211500 in Python, 1327621719211499 here). The `OverflowError` of `int` on an infinite product, for \|t\| above about 1.8e308, is not modelled either.
- Detector.Latencies: every `latency_ms` is a number. A non-numeric or null value makes `sum` raise TypeError at agent.py:48. `run_cycle` would then crash after loading the document and before any action, and the window would not be cleared. The model does not capture that crash.
- `print` logging is not modelled.
- Concurrency is not modelled. The async handlers share the window without locks; the model is sequential.
- service_simulator.py, log_emitter.py and streamlit_dashboard.py are external collaborators and are not part of this model.
