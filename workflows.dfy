/** The remediation workflow document and its store (`load_workflow`,
    `save_workflow`, `snapshot_workflow`). The backing file and the versions
    directory are modelled in memory. */
module Workflows {

  /** A JSON parameter value: the model distinguishes integers from text. */
  datatype Value = Int(i: int) | Str(s: string)

  type Params = map<string, Value>

  /** One step of the document: `{id, type, params}` (`type` is spelled
      `kind` here). */
  datatype Step = Step(id: string, kind: string, params: Params)

  /** The `steps` list of the document. */
  type Workflow = seq<Step>

  const VersionsDir := "workflow_versions"

  /** The list of step ids, in document order. */
  function Ids(wf: Workflow): (ids: seq<string>)
    ensures |ids| == |wf| && forall i :: 0 <= i < |wf| ==> ids[i] == wf[i].id
  {
    seq(|wf|, i requires 0 <= i < |wf| => wf[i].id)
  }

  /** `id in ids` over the list of step ids. */
  predicate HasStep(wf: Workflow, id: string)
    ensures HasStep(wf, id) <==> exists i :: 0 <= i < |wf| && wf[i].id == id
  {
    id in Ids(wf)
  }

  /** `reason.replace(' ', '_')`. */
  function Sanitize(reason: string): (r: string)
    ensures |r| == |reason|
    ensures forall i :: 0 <= i < |r| ==> r[i] != ' '
    ensures forall i :: 0 <= i < |r| && reason[i] != ' ' ==> r[i] == reason[i]
    ensures forall i :: 0 <= i < |r| && reason[i] == ' ' ==> r[i] == '_'
  {
    seq(|reason|, i requires 0 <= i < |reason| => if reason[i] == ' ' then '_' else reason[i])
  }

  /** A reason without spaces is used verbatim in the snapshot name. */
  lemma SanitizeKeepsPlainReason(reason: string)
    requires forall i :: 0 <= i < |reason| ==> reason[i] != ' '
    ensures Sanitize(reason) == reason
  {
  }

  /** Where a snapshot taken at UTC time `ts` (`YYYYMMDDTHHMMSSZ`) for
      `reason` is written. */
  function SnapshotPath(ts: string, reason: string): (p: string)
    ensures |p| == |VersionsDir| + |ts| + |reason| + 8
    ensures p[..|VersionsDir| + 1] == VersionsDir + "/"
    ensures p[|VersionsDir| + 1..|VersionsDir| + 1 + |ts|] == ts
    ensures p[|VersionsDir| + 1 + |ts|..|p| - 5] == "__" + Sanitize(reason)
    ensures p[|p| - 5..] == ".json"
  {
    VersionsDir + "/" + ts + "__" + Sanitize(reason) + ".json"
  }

  /** Snapshots for one reason taken at distinct timestamps of the fixed
      `YYYYMMDDTHHMMSSZ` width land in distinct files. */
  lemma DistinctTimesDistinctFiles(ts1: string, ts2: string, reason: string)
    requires |ts1| == |ts2| && ts1 != ts2
    ensures SnapshotPath(ts1, reason) != SnapshotPath(ts2, reason)
  {
    var p1, p2 := SnapshotPath(ts1, reason), SnapshotPath(ts2, reason);
    var k := |VersionsDir| + 1;
    assert p1[k..k + |ts1|] == ts1 && p2[k..k + |ts2|] == ts2;
  }

  /** The whole persistent state: the current document and the snapshots
      taken so far, oldest first, each with its file name. */
  datatype StoreState = StoreState(current: Workflow, versions: seq<(string, Workflow)>)

  /** The state after copying the current document into the versions area. */
  function Snapshotted(s: StoreState, reason: string, ts: string): (r: StoreState)
    ensures r.current == s.current
    ensures |r.versions| == |s.versions| + 1 && r.versions[..|s.versions|] == s.versions
    ensures r.versions[|s.versions|] == (SnapshotPath(ts, reason), s.current)
  {
    s.(versions := s.versions + [(SnapshotPath(ts, reason), s.current)])
  }

  /** The state after overwriting the current document with `wf`. */
  function Saved(s: StoreState, wf: Workflow): (r: StoreState)
    ensures r.current == wf && r.versions == s.versions
  {
    s.(current := wf)
  }

  class WorkflowStore {
    var current: Workflow
    var versions: seq<(string, Workflow)>

    function State(): StoreState
      reads this
    {
      StoreState(current, versions)
    }

    constructor (initial: Workflow)
      ensures current == initial && versions == []
    {
      current, versions := initial, [];
    }

    /** A fresh copy of the current document. */
    method Load() returns (wf: Workflow)
      ensures wf == current
    {
      wf := current;
    }

    /** Overwrite the current document; the versions are untouched. */
    method Save(wf: Workflow)
      modifies this
      ensures State() == Saved(old(State()), wf)
    {
      current := wf;
    }

    /** Copy the current (pre-mutation) document into the versions area. */
    method Snapshot(reason: string, ts: string)
      modifies this
      ensures State() == Snapshotted(old(State()), reason, ts)
    {
      versions := versions + [(SnapshotPath(ts, reason), current)];
    }
  }
}
