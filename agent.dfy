/** One remediation cycle (`run_cycle`) and the status query (`status`):
    load, detect, classify, act, verify, evolve, reset. */
module Agent {
  import opened Common
  import opened Events
  import opened Detector
  import opened Workflows
  import opened Executor
  import opened Evolver

  /** `{"status": "no_anomaly", ...}`, `{"status": "remediation_ran", ...}`,
      or an exception escaping the handler. */
  datatype CycleOutcome =
    | NoAnomaly(analysis: Analysis)
    | RemediationRan(analysis: Analysis, rootCause: string, actionTaken: string,
                     action: ActionResult, verification: VerifyResult, evolve: EvolveReport)
    | Crashed(fault: Fault)

  /** Step `k` is the first restart step in document order. */
  predicate IsFirstRestart(wf: Workflow, k: int)
  {
    0 <= k < |wf| && wf[k].kind == RestartAction
    && forall j :: 0 <= j < k ==> wf[j].kind != RestartAction
  }

  predicate HasRestart(wf: Workflow)
  {
    exists k :: 0 <= k < |wf| && wf[k].kind == RestartAction
  }

  /** The scan of `run_cycle` that stops at the first restart step. */
  method FindRestart(wf: Workflow) returns (idx: Option<nat>)
    ensures idx.Some? ==> IsFirstRestart(wf, idx.value)
    ensures idx.None? <==> !HasRestart(wf)
  {
    idx := None;
    var i := 0;
    while i < |wf|
      invariant 0 <= i <= |wf|
      invariant forall j :: 0 <= j < i ==> wf[j].kind != RestartAction
    {
      if wf[i].kind == RestartAction {
        idx := Some(i);
        break;
      }
      i := i + 1;
    }
  }

  /** One cycle. `recover` is what GET /recover answers, `probe` what the
      service answers on a check path, `ts` the UTC time of any snapshot. */
  method RunCycle(metrics: EventWindow, store: WorkflowStore,
                  recover: HttpOutcome, probe: Value -> HttpOutcome, ts: string)
    returns (out: CycleOutcome)
    modifies metrics, store
    // No anomaly: report the verdict and leave the window and its counters in place.
    ensures !Analyze(old(metrics.window)).IsAnomaly() ==>
              out == NoAnomaly(Analyze(old(metrics.window))) && unchanged(metrics) && unchanged(store)
    // An empty step list fails at `steps[-1]`, before any probe.
    ensures Analyze(old(metrics.window)).IsAnomaly() && old(store.current) == [] ==>
              out == Crashed(IndexError)
    // No restart step: the probe runs, then `None.get` fails.
    ensures Analyze(old(metrics.window)).IsAnomaly() && old(store.current) != [] && !HasRestart(old(store.current)) ==>
              out == Crashed(AttributeError)
    // A crash leaves no trace in the window, the counters or the store.
    ensures out.Crashed? ==> unchanged(metrics) && store.State() == old(store.State())
    // The window's invariant survives the cycle.
    ensures old(metrics.Valid()) ==> metrics.Valid()
    // With a restart step and numeric thresholds the cycle completes.
    ensures (Analyze(old(metrics.window)).IsAnomaly() && HasRestart(old(store.current))
             && AllLowerable(old(store.current))) ==> out.RemediationRan?
    // More precisely, with a restart step the cycle completes unless the success branch
    // meets a non-numeric threshold.
    ensures forall k :: IsFirstRestart(old(store.current), k) && Analyze(old(metrics.window)).IsAnomaly()
              && (|| AllLowerable(old(store.current))
                  || !Execute(RestartAction, old(store.current)[k].params, recover).ok
                  || !Verify(old(store.current)[|old(store.current)| - 1].params, probe).ok)
              ==> out.RemediationRan?
    // A successful action and probe with a non-numeric threshold: the
    // evolver's TypeError escapes.
    ensures forall k :: IsFirstRestart(old(store.current), k) && Analyze(old(metrics.window)).IsAnomaly()
              && !AllLowerable(old(store.current))
              && Execute(RestartAction, old(store.current)[k].params, recover).ok
              && Verify(old(store.current)[|old(store.current)| - 1].params, probe).ok
              ==> out == Crashed(TypeError)
    // An anomalous window is never reported as quiet.
    ensures Analyze(old(metrics.window)).IsAnomaly() ==> !out.NoAnomaly?
    // ... and that is the only crash once a restart step exists.
    ensures out.Crashed? && HasRestart(old(store.current)) ==> out.fault == TypeError
    // A completed cycle: first restart step executed, last step's params
    // verified, evolver fed with both results, window and counters reset.
    ensures out.RemediationRan? ==>
              var a := Analyze(old(metrics.window));
              var wf := old(store.current);
              && a.IsAnomaly() && out.analysis == a && out.rootCause == RootCause(a)
              && (exists k :: IsFirstRestart(wf, k) && out.actionTaken == wf[k].id
                              && out.action == Execute(RestartAction, wf[k].params, recover))
              && wf != []
              && out.verification == Verify(wf[|wf| - 1].params, probe)
              && Evolved(wf, out.action.ok && out.verification.ok, ts, old(store.State()))
                 == Done((out.evolve, store.State()))
              && metrics.window == [] && metrics.totalCount == 0 && metrics.errorCount == 0
  {
    var wf := store.Load();
    var analysis := Analyze(metrics.window);
    if !analysis.IsAnomaly() {
      return NoAnomaly(analysis);
    }
    var rc := RootCause(analysis);
    var actionTaken: Option<string> := None;
    var actionDetail: Option<ActionResult> := None;
    var idx := FindRestart(wf);
    if idx.Some? {
      var step := wf[idx.value];
      actionTaken := Some(step.id);
      actionDetail := Some(Execute(step.kind, step.params, recover));
    }
    if wf == [] {
      return Crashed(IndexError);
    }
    var verified := Verify(wf[|wf| - 1].params, probe);
    if actionDetail.None? {
      return Crashed(AttributeError);
    }
    var success := actionDetail.value.ok && verified.ok;
    var evolved := Evolve(store, wf, success, ts);
    if evolved.Raised? {
      return Crashed(evolved.fault);
    }
    metrics.Clear();
    out := RemediationRan(analysis, rc, actionTaken.value, actionDetail.value, verified, evolved.value);
  }

  /** Read-only: the window length and the current document. */
  method Status(metrics: EventWindow, store: WorkflowStore) returns (windowLen: nat, wf: Workflow)
    ensures windowLen == |metrics.window| && wf == store.current
  {
    wf := store.Load();
    windowLen := |metrics.window|;
  }
}
