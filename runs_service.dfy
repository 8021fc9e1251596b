/**
 * `RunsService.create` and `RunsService.executeAnalysis`
 * (apps/api/src/services/runs.service.ts): a run is created "analyzing", the
 * matching loops compute the APPLICABLE rows, the rows are written, and the run
 * ends "completed", or "failed" when a step of the store fails, or stays
 * "analyzing" when the failure update fails as well. The store is the
 * run object's own fields; each store step that can throw is a boolean or an
 * optional input.
 */
module RunsService {
  import opened Wrappers
  import opened Applicability

  datatype RunStatus = Analyzing | Completed | Failed

  /** The status strings the source stores. */
  function StatusText(s: RunStatus): (t: string)
    ensures t in {"analyzing", "completed", "failed"}
  {
    match s
    case Analyzing => "analyzing"
    case Completed => "completed"
    case Failed => "failed"
  }

  /** Distinct statuses are stored as distinct strings. */
  lemma StatusTextInjective(a: RunStatus, b: RunStatus)
    requires StatusText(a) == StatusText(b)
    ensures a == b
  {
  }

  /**
   * The outer loop of `executeAnalysis`: scan each note's rules (ScanNote) and
   * push one APPLICABLE row per applicable note.
   */
  method AnalyseNotes(runId: string, cs: seq<InstalledComponent>, notes: seq<Note>) returns (rows: seq<ApplicabilityResult>)
    ensures rows == ApplicableRows(runId, cs, notes)
  {
    rows := [];
    var n := 0;
    while n < |notes|
      invariant 0 <= n <= |notes|
      invariant rows == ApplicableRows(runId, cs, notes[..n])
    {
      var note := notes[n];
      var isApplicable, reason := ScanNote(cs, note.validities);
      if isApplicable {
        rows := rows + [ApplicabilityResult(runId, note.noteId, ApplicableStatus, reason)];
      }
      assert notes[..n + 1][..n] == notes[..n];
      n := n + 1;
    }
    assert notes[..|notes|] == notes;
  }

  /**
   * The inner loop of `executeAnalysis` over one note's rules: skip a rule whose
   * component is not installed, stop at the first rule in range, and otherwise
   * keep the last out-of-range reason.
   */
  method ScanNote(cs: seq<InstalledComponent>, rules: seq<NoteValidity>) returns (isApplicable: bool, reason: Reason)
    ensures reason == NoteReason(cs, rules)
    ensures isApplicable <==> reason.Matched?
  {
    isApplicable := false;
    reason := NoMatch;
    var k := 0;
    while k < |rules|
      invariant 0 <= k <= |rules|
      invariant !isApplicable ==> !reason.Matched? && ScanRules(cs, rules[k..], reason) == NoteReason(cs, rules)
      invariant isApplicable ==> reason.Matched? && reason == NoteReason(cs, rules)
    {
      var rule := rules[k];
      var found := FindComponent(cs, rule);
      if found.None? {
        k := k + 1;
        continue;
      }
      var c := found.value;
      if c.spLevel >= rule.minSpLevel && c.spLevel <= rule.maxSpLevel {
        isApplicable := true;
        reason := Matched(rule, c.spLevel);
        break;
      } else {
        reason := OutOfRange(rule, c.spLevel);
      }
      k := k + 1;
    }
  }

  /** A run of the analysis engine, with the fields the service writes. */
  class Run {
    const id: string
    const systemId: string
    const batchId: string
    const uploadedBy: string
    const startedAt: int
    var status: RunStatus
    var finishedAt: Option<int>
    /** The applicability rows stored for this run. */
    var results: seq<ApplicabilityResult>

    /** `prisma.run.create`: a new run starts "analyzing" at `now`, unfinished and without rows. */
    constructor Create(id: string, systemId: string, batchId: string, uploadedBy: string, now: int)
      ensures this.id == id && this.systemId == systemId && this.batchId == batchId && this.uploadedBy == uploadedBy
      ensures startedAt == now
      ensures status == Analyzing && finishedAt == None && results == []
    {
      this.id := id;
      this.systemId := systemId;
      this.batchId := batchId;
      this.uploadedBy := uploadedBy;
      startedAt := now;
      status := Analyzing;
      finishedAt := None;
      results := [];
    }

    /**
     * `executeAnalysis`: `installed` and `notes` are the two reads (`None` when the
     * read throws), `writeSucceeds` is the outcome of `createMany`, called only when
     * there are rows, and `completeSucceeds` that of the final status update. Any
     * failure reaches the catch block, whose own "failed" update succeeds exactly
     * when `failUpdateSucceeds`; when it throws too, the call rejects and the run
     * is left as it was. Rows already written stay, since nothing is transactional.
     */
    method ExecuteAnalysis(installed: Option<seq<InstalledComponent>>, notes: Option<seq<Note>>,
                           writeSucceeds: bool, completeSucceeds: bool, failUpdateSucceeds: bool, now: int)
      returns (rejected: bool)
      modifies this
      ensures rejected <==> !AnalysisCompletes(id, installed, notes, writeSucceeds, completeSucceeds) && !failUpdateSucceeds
      ensures rejected ==> status == old(status) && finishedAt == old(finishedAt)
      ensures !rejected ==> finishedAt == Some(now)
      ensures !rejected ==>
        status == (if AnalysisCompletes(id, installed, notes, writeSucceeds, completeSucceeds) then Completed else Failed)
      ensures results == old(results)
        + (if RowsStored(id, installed, notes, writeSucceeds) then ApplicableRows(id, installed.value, notes.value) else [])
    {
      rejected := false;
      if installed.None? || notes.None? {
        rejected := FailRun(failUpdateSucceeds, now);
        return;
      }
      var rows := AnalyseNotes(id, installed.value, notes.value);
      if |rows| > 0 {
        if !writeSucceeds {
          rejected := FailRun(failUpdateSucceeds, now);
          return;
        }
        results := results + rows;
      }
      if completeSucceeds {
        status, finishedAt := Completed, Some(now);
      } else {
        rejected := FailRun(failUpdateSucceeds, now);
      }
    }

    /**
     * The catch block's `run.update` to "failed"; when that update throws as well,
     * nothing changes and the error propagates to the caller.
     */
    method FailRun(updateSucceeds: bool, now: int) returns (rejected: bool)
      modifies this
      ensures rejected <==> !updateSucceeds
      ensures updateSucceeds ==> status == Failed && finishedAt == Some(now)
      ensures !updateSucceeds ==> status == old(status) && finishedAt == old(finishedAt)
      ensures results == old(results)
    {
      rejected := !updateSucceeds;
      if updateSucceeds {
        status, finishedAt := Failed, Some(now);
      }
    }
  }

  /** Both reads succeed, and the rows, if there are any, are written. */
  predicate RowsStored(id: string, installed: Option<seq<InstalledComponent>>, notes: Option<seq<Note>>, writeSucceeds: bool)
  {
    installed.Some? && notes.Some? && (ApplicableRows(id, installed.value, notes.value) != [] ==> writeSucceeds)
  }

  /** Every step of the try block succeeds, so the run is marked "completed". */
  predicate AnalysisCompletes(id: string, installed: Option<seq<InstalledComponent>>, notes: Option<seq<Note>>,
                              writeSucceeds: bool, completeSucceeds: bool)
  {
    RowsStored(id, installed, notes, writeSucceeds) && completeSucceeds
  }

  /**
   * `create`: a run is created "analyzing" at `startedAt` and analysed straight
   * away. It ends "completed" with exactly its APPLICABLE rows, or "failed"; when
   * the failure update throws as well, `create` rejects and the stored run stays
   * "analyzing" with no finish time.
   */
  method CreateRun(id: string, systemId: string, batchId: string, uploadedBy: string,
                   installed: Option<seq<InstalledComponent>>, notes: Option<seq<Note>>,
                   writeSucceeds: bool, completeSucceeds: bool, failUpdateSucceeds: bool,
                   startedAt: int, finishedAt: int)
    returns (run: Run, rejected: bool)
    ensures fresh(run)
    ensures run.id == id && run.startedAt == startedAt
    ensures run.status == Completed <==> AnalysisCompletes(id, installed, notes, writeSucceeds, completeSucceeds)
    ensures run.status == Completed ==> run.results == ApplicableRows(id, installed.value, notes.value)
    ensures rejected <==> run.status == Analyzing
    ensures rejected <==> !AnalysisCompletes(id, installed, notes, writeSucceeds, completeSucceeds) && !failUpdateSucceeds
    ensures rejected ==> run.finishedAt == None
    ensures !rejected ==> run.finishedAt == Some(finishedAt)
  {
    run := new Run.Create(id, systemId, batchId, uploadedBy, startedAt);
    rejected := run.ExecuteAnalysis(installed, notes, writeSucceeds, completeSucceeds, failUpdateSucceeds, finishedAt);
  }
}
