/** The policy evolver (`reflect_and_evolve`): after a successful remediation
    it lowers every anomaly-detection latency threshold; after a failed one it
    appends a single escalation step. Each mutation snapshots the stored
    document first and then saves the new one. */
module Evolver {
  import opened Common
  import opened Workflows

  const DetectionKind := "anomaly_detection"
  const ThresholdKey := "latency_threshold_ms"
  const DefaultThreshold := 300
  const MinThreshold := 80

  const NotifyId := "notify_admin"
  const NotifyKind := "action_notify"
  const EscalationMessage := "AutoOps Evo: remediation failed, manual review required"
  /** The escalation step appended after a failed remediation. */
  const NotifyStep := Step(NotifyId, NotifyKind,
                           map["channel" := Str("console"), "message" := Str(EscalationMessage)])

  const SuccessReason := "improved_after_success"
  const FailureReason := "added_notify_after_failure"
  const LoweredNote := "lowered latency threshold"
  const NotifyNote := "added notify_admin step"

  /** `{evolved, note}`; the note is absent when nothing evolved. */
  datatype EvolveReport = EvolveReport(evolved: bool, note: Option<string>)

  /** `int(t * 0.95)`: 95% of t, truncated toward zero. */
  function Scaled(t: int): (r: int)
    ensures 0 <= t ==> 20 * r <= 19 * t < 20 * r + 20
    ensures t < 0 ==> 20 * r - 20 < 19 * t <= 20 * r
  {
    if t >= 0 then (19 * t) / 20 else -((-19 * t) / 20)
  }

  /** `max(80, int(t * 0.95))`. */
  function LoweredThreshold(t: int): (r: int)
    ensures r >= MinThreshold
    ensures r == MinThreshold || 20 * r <= 19 * t < 20 * r + 20
    ensures r == MinThreshold <==> 19 * t < 20 * (MinThreshold + 1)
    ensures t >= MinThreshold ==> r <= t
    ensures t > MinThreshold ==> r < t
  {
    var s := Scaled(t);
    if s > MinThreshold then s else MinThreshold
  }

  /** `params.get("latency_threshold_ms", 300)`. */
  function ThresholdOf(p: Params): (t: Value)
    ensures ThresholdKey in p ==> t == p[ThresholdKey]
    ensures ThresholdKey !in p ==> t == Int(DefaultThreshold)
  {
    if ThresholdKey in p then p[ThresholdKey] else Int(DefaultThreshold)
  }

  predicate IsDetection(s: Step)
  {
    s.kind == DetectionKind
  }

  /** `t * 0.95` does not raise: the step is not a detection step, or its
      threshold is a number. */
  predicate Lowerable(s: Step)
  {
    IsDetection(s) ==> ThresholdOf(s.params).Int?
  }

  predicate AllLowerable(wf: Workflow)
  {
    forall i :: 0 <= i < |wf| ==> Lowerable(wf[i])
  }

  /** One step after the success branch of the evolver. */
  function Tightened(s: Step): (r: Step)
    requires Lowerable(s)
    ensures r.id == s.id && r.kind == s.kind
    ensures !IsDetection(s) ==> r == s
    ensures IsDetection(s) ==> r.params.Keys == s.params.Keys + {ThresholdKey}
    ensures IsDetection(s) ==> forall k :: k in s.params && k != ThresholdKey ==> r.params[k] == s.params[k]
    ensures IsDetection(s) ==> ThresholdOf(r.params) == Int(LoweredThreshold(ThresholdOf(s.params).i))
  {
    if IsDetection(s) then
      s.(params := s.params[ThresholdKey := Int(LoweredThreshold(ThresholdOf(s.params).i))])
    else
      s
  }

  /** The whole document after the success branch: same steps in the same
      order, with only the detection thresholds replaced. */
  function TightenAll(wf: Workflow): (r: Workflow)
    requires AllLowerable(wf)
    ensures |r| == |wf|
    ensures forall i :: 0 <= i < |wf| ==> r[i].id == wf[i].id && r[i].kind == wf[i].kind
    ensures forall i :: 0 <= i < |wf| && !IsDetection(wf[i]) ==> r[i] == wf[i]
    ensures forall i :: 0 <= i < |wf| && IsDetection(wf[i]) ==>
              ThresholdOf(r[i].params).Int? && ThresholdOf(r[i].params).i >= MinThreshold
    ensures forall i :: 0 <= i < |wf| && IsDetection(wf[i]) && ThresholdOf(wf[i].params).i >= MinThreshold ==>
              ThresholdOf(r[i].params).i <= ThresholdOf(wf[i].params).i
    ensures forall i :: 0 <= i < |wf| ==> r[i] == Tightened(wf[i])
  {
    seq(|wf|, i requires 0 <= i < |wf| => Tightened(wf[i]))
  }

  /** The success-branch loop over the steps. A non-numeric threshold makes
      `t * 0.95` raise TypeError, which abandons the in-memory copy. */
  method LowerThresholds(wf: Workflow) returns (res: Outcome<Workflow>)
    ensures AllLowerable(wf) ==> res == Done(TightenAll(wf))
    ensures !AllLowerable(wf) ==> res == Raised(TypeError)
  {
    var steps := wf;
    for i := 0 to |wf|
      invariant |steps| == |wf|
      invariant forall j :: 0 <= j < i ==> Lowerable(wf[j]) && steps[j] == Tightened(wf[j])
      invariant forall j :: i <= j < |wf| ==> steps[j] == wf[j]
    {
      var step := steps[i];
      if step.kind == DetectionKind {
        var t := ThresholdOf(step.params);
        if t.Str? {
          return Raised(TypeError);
        }
        steps := steps[i := step.(params := step.params[ThresholdKey := Int(LoweredThreshold(t.i))])];
      }
    }
    assert AllLowerable(wf);
    assert forall j :: 0 <= j < |wf| ==> steps[j] == TightenAll(wf)[j];
    assert steps == TightenAll(wf);
    return Done(steps);
  }

  /** What `reflect_and_evolve` does to the store and what it reports, given
      the in-memory document `wf` and the stored state `s`. */
  function Evolved(wf: Workflow, success: bool, ts: string, s: StoreState): (r: Outcome<(EvolveReport, StoreState)>)
    ensures r.Raised? <==> success && !AllLowerable(wf)
    ensures r.Raised? ==> r.fault == TypeError
    ensures r.Done? ==> (r.value.0.evolved <==> success || !HasStep(wf, NotifyId))
    ensures r.Done? && !r.value.0.evolved ==> r.value.1 == s && r.value.0.note.None?
    ensures r.Done? && r.value.0.evolved ==>
              && |r.value.1.versions| == |s.versions| + 1
              && r.value.1.versions[..|s.versions|] == s.versions
              && r.value.1.versions[|s.versions|].1 == s.current
              && r.value.1.versions[|s.versions|].0 == SnapshotPath(ts, if success then SuccessReason else FailureReason)
              && r.value.0.note == Some(if success then LoweredNote else NotifyNote)
    ensures r.Done? && success ==> r.value.1.current == TightenAll(wf)
    ensures r.Done? && !success && r.value.0.evolved ==>
              |r.value.1.current| == |wf| + 1 && r.value.1.current[..|wf|] == wf
              && r.value.1.current[|wf|] == NotifyStep
  {
    if success then
      if AllLowerable(wf) then
        Done((EvolveReport(true, Some(LoweredNote)), Saved(Snapshotted(s, SuccessReason, ts), TightenAll(wf))))
      else
        Raised(TypeError)
    else if !HasStep(wf, NotifyId) then
      Done((EvolveReport(true, Some(NotifyNote)), Saved(Snapshotted(s, FailureReason, ts), wf + [NotifyStep])))
    else
      Done((EvolveReport(false, None), s))
  }

  /** Lower thresholds or escalate, snapshotting the stored document before
      saving the new one. */
  method Evolve(store: WorkflowStore, wf: Workflow, success: bool, ts: string) returns (res: Outcome<EvolveReport>)
    modifies store
    ensures var spec := Evolved(wf, success, ts, old(store.State()));
            && (spec.Raised? ==> res == Raised(spec.fault) && store.State() == old(store.State()))
            && (spec.Done? ==> res == Done(spec.value.0) && store.State() == spec.value.1)
  {
    if success {
      var lowered := LowerThresholds(wf);
      if lowered.Raised? {
        return Raised(lowered.fault);
      }
      store.Snapshot(SuccessReason, ts);
      store.Save(lowered.value);
      return Done(EvolveReport(true, Some(LoweredNote)));
    } else {
      if !HasStep(wf, NotifyId) {
        store.Snapshot(FailureReason, ts);
        store.Save(wf + [NotifyStep]);
        return Done(EvolveReport(true, Some(NotifyNote)));
      }
      return Done(EvolveReport(false, None));
    }
  }

  /** Two failed cycles in a row: the first appends the escalation step, the
      second finds it, reports `evolved: false` and leaves the store as it is. */
  lemma SecondFailureChangesNothing(s: StoreState, ts1: string, ts2: string)
    requires !HasStep(s.current, NotifyId)
    ensures var first := Evolved(s.current, false, ts1, s);
            && first.Done? && first.value.0.evolved
            && Evolved(first.value.1.current, false, ts2, first.value.1)
               == Done((EvolveReport(false, None), first.value.1))
  {
  }

  /** The threshold after `k` successful cycles. */
  function LoweredTimes(t: int, k: nat): int
  {
    if k == 0 then t else LoweredThreshold(LoweredTimes(t, k - 1))
  }

  /** Repeated successes: from the first one on the threshold stays at or
      above 80, never goes up again, and drops by at least 1 per cycle until
      it reaches 80. */
  lemma {:induction false} RepeatedSuccesses(t: int, k: nat)
    ensures k > 0 ==> LoweredTimes(t, k) >= MinThreshold
    ensures LoweredTimes(t, k) <= if t - k > MinThreshold then t - k else MinThreshold
    ensures k > 0 || t >= MinThreshold ==> LoweredTimes(t, k + 1) <= LoweredTimes(t, k)
  {
    if k > 0 {
      RepeatedSuccesses(t, k - 1);
    }
  }

  /** 300 -> 285 -> 270 -> 256. */
  lemma ThresholdExample()
    ensures LoweredTimes(300, 1) == 285 && LoweredTimes(300, 2) == 270 && LoweredTimes(300, 3) == 256
  {
  }
}
