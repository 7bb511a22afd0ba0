/**
 * The per-record edit form (components/JobModal.tsx): how it is filled when
 * it opens, and the stage-list edits it offers (rename, add before the last
 * node, remove, reset to the defaults).
 */
module JobModal {
  import opened Types

  /** The form state; job type and status always have a value here. */
  datatype JobForm = JobForm(
    company: string,
    position: string,
    jobType: JobType,
    salary: Option<string>,
    notes: Option<string>,
    currentStepIndex: int,
    steps: seq<string>,
    currentStepStatus: StepStatus,
    stepDates: map<int, int>)

  /** The current stage lies on the stage list. */
  predicate WellFormed(form: JobForm)
  {
    0 <= form.currentStepIndex < |form.steps|
  }

  /**
   * The form as it opens: a copy of the edited job, with missing job type and
   * status falling back to internship and in-progress, or a blank record on
   * the default stages.
   */
  function InitForm(editing: Option<Job>, defaultSteps: seq<string>): (f: JobForm)
    ensures editing.None? ==>
      f == JobForm("", "", Internship, Some(""), Some(""), 0, defaultSteps, InProgress, map[])
    ensures editing.Some? ==>
      var job := editing.value;
      && f.company == job.company && f.position == job.position
      && f.salary == job.salary && f.notes == job.notes
      && f.currentStepIndex == job.currentStepIndex && f.steps == job.steps
      && f.stepDates == job.stepDates
      && f.jobType == (if job.jobType.Some? then job.jobType.value else Internship)
      && f.currentStepStatus == (if job.currentStepStatus.Some? then job.currentStepStatus.value else InProgress)
  {
    match editing
    case None => JobForm("", "", Internship, Some(""), Some(""), 0, defaultSteps, InProgress, map[])
    case Some(job) =>
      JobForm(job.company, job.position,
              if job.jobType.Some? then job.jobType.value else Internship,
              job.salary, job.notes, job.currentStepIndex, job.steps,
              if job.currentStepStatus.Some? then job.currentStepStatus.value else InProgress,
              job.stepDates)
  }

  /** A new form on a non-empty default list starts well formed, on the first stage. */
  lemma NewFormWellFormed(defaultSteps: seq<string>)
    requires |defaultSteps| > 0
    ensures WellFormed(InitForm(None, defaultSteps))
    ensures InitForm(None, defaultSteps).steps[0] == defaultSteps[0]
  {
  }

  /** The nodes that cannot be renamed or removed: the first two and the last. */
  predicate IsFixed(steps: seq<string>, idx: int)
  {
    idx == 0 || idx == 1 || idx == |steps| - 1
  }

  /** On a list of three or more, exactly three stages are fixed. */
  lemma {:induction false} FixedNodes(steps: seq<string>)
    requires |steps| >= 3
    ensures (set idx | 0 <= idx < |steps| && IsFixed(steps, idx)) == {0, 1, |steps| - 1}
    ensures forall idx :: 1 < idx < |steps| - 1 ==> !IsFixed(steps, idx)
  {
    var fixed := set idx | 0 <= idx < |steps| && IsFixed(steps, idx);
    assert 0 in fixed && 1 in fixed && |steps| - 1 in fixed;
  }

  /** Renames the stage at `index`; the list keeps its length. */
  function UpdateStepName(form: JobForm, index: int, name: string): (r: JobForm)
    requires 0 <= index < |form.steps|
    ensures |r.steps| == |form.steps| && r.steps[index] == name
    ensures forall k :: 0 <= k < |form.steps| && k != index ==> r.steps[k] == form.steps[k]
    ensures r == form.(steps := r.steps)
  {
    form.(steps := form.steps[index := name])
  }

  /** Where addStep inserts: before the last node, or at the front of an empty list. */
  function InsertPosition(steps: seq<string>): (p: nat)
    ensures p <= |steps|
    ensures |steps| > 0 ==> p == |steps| - 1
  {
    if |steps| > 0 then |steps| - 1 else 0
  }

  /** Inserts the placeholder node just before the last node; the current index does not move. */
  function AddStep(form: JobForm): (r: JobForm)
    ensures var p := InsertPosition(form.steps);
      && |r.steps| == |form.steps| + 1
      && r.steps[p] == NEW_STEP_NAME
      && r.steps[..p] == form.steps[..p]
      && r.steps[p + 1..] == form.steps[p..]
    ensures |form.steps| > 0 ==> r.steps[|r.steps| - 1] == form.steps[|form.steps| - 1]
    ensures r == form.(steps := r.steps)
  {
    var p := InsertPosition(form.steps);
    form.(steps := form.steps[..p] + [NEW_STEP_NAME] + form.steps[p..])
  }

  /** `steps.filter((_, i) => i !== index)`. */
  function RemoveAt(steps: seq<string>, index: int): (r: seq<string>)
    ensures 0 <= index < |steps| ==> |r| == |steps| - 1
    ensures 0 <= index < |steps| ==> forall k :: 0 <= k < |r| ==> r[k] == if k < index then steps[k] else steps[k + 1]
    ensures !(0 <= index < |steps|) ==> r == steps
  {
    if 0 <= index < |steps| then steps[..index] + steps[index + 1..] else steps
  }

  /**
   * Removes a stage unless it is the only one; the current index steps back
   * when it is at or after the removed stage and not already the first.
   */
  function RemoveStep(form: JobForm, index: int): (r: JobForm)
    ensures |form.steps| <= 1 ==> r == form
    ensures |form.steps| > 1 ==>
      && r.steps == RemoveAt(form.steps, index)
      && (r.currentStepIndex == form.currentStepIndex - 1 <==>
            form.currentStepIndex >= index && form.currentStepIndex > 0)
      && (r.currentStepIndex == form.currentStepIndex <==>
            !(form.currentStepIndex >= index && form.currentStepIndex > 0))
    ensures r == form.(steps := r.steps, currentStepIndex := r.currentStepIndex)
  {
    if |form.steps| <= 1 then form
    else
      var newIndex := if form.currentStepIndex >= index && form.currentStepIndex > 0
                      then form.currentStepIndex - 1 else form.currentStepIndex;
      form.(steps := RemoveAt(form.steps, index), currentStepIndex := newIndex)
  }

  /** Back to the default stages, on the first one (after the user confirms). */
  function ResetSteps(form: JobForm, defaultSteps: seq<string>): (r: JobForm)
    ensures r.steps == defaultSteps && r.currentStepIndex == 0
    ensures r == form.(steps := defaultSteps, currentStepIndex := 0)
  {
    form.(steps := defaultSteps, currentStepIndex := 0)
  }

  /** The radio button on a stage row: that stage becomes the current one. */
  function SelectCurrent(form: JobForm, idx: int): (r: JobForm)
    ensures r.currentStepIndex == idx && r.steps == form.steps
    ensures r == form.(currentStepIndex := idx)
  {
    form.(currentStepIndex := idx)
  }

  /** Every edit keeps the current stage on the list. */
  lemma {:induction false} EditsPreserveWellFormed(form: JobForm, index: int, name: string, defaultSteps: seq<string>)
    requires WellFormed(form)
    ensures 0 <= index < |form.steps| ==> WellFormed(UpdateStepName(form, index, name))
    ensures WellFormed(AddStep(form))
    ensures 0 <= index < |form.steps| ==> WellFormed(RemoveStep(form, index))
    ensures |defaultSteps| > 0 ==> WellFormed(ResetSteps(form, defaultSteps))
    ensures 0 <= index < |form.steps| ==> WellFormed(SelectCurrent(form, index))
  {
    if 0 <= index < |form.steps| && |form.steps| > 1 {
      var r := RemoveStep(form, index);
      assert |r.steps| == |form.steps| - 1;
      if form.currentStepIndex >= index && form.currentStepIndex > 0 {
        assert r.currentStepIndex == form.currentStepIndex - 1;
      } else {
        assert r.currentStepIndex == form.currentStepIndex;
        assert form.currentStepIndex < index || form.currentStepIndex == 0;
      }
    }
  }

  /**
   * Adding a node to a list of three or more, or removing a node the form
   * lets the user remove, keeps the three fixed nodes in place.
   */
  lemma FixedNodesSurviveEdits(form: JobForm, index: int)
    requires |form.steps| >= 3
    ensures var r := AddStep(form);
      r.steps[0] == form.steps[0] && r.steps[1] == form.steps[1]
      && r.steps[|r.steps| - 1] == form.steps[|form.steps| - 1]
    ensures 0 <= index < |form.steps| && !IsFixed(form.steps, index) ==>
      var r := RemoveStep(form, index);
      r.steps[0] == form.steps[0] && r.steps[1] == form.steps[1]
      && r.steps[|r.steps| - 1] == form.steps[|form.steps| - 1]
  {
    var r := AddStep(form);
    assert r.steps[..|form.steps| - 1] == form.steps[..|form.steps| - 1];
    assert r.steps[0] == r.steps[..|form.steps| - 1][0];
    assert r.steps[1] == r.steps[..|form.steps| - 1][1];
  }

  /**
   * The stage-date map is keyed by position and none of the list edits
   * re-keys it: after a removal the dates of later stages stay at their old
   * positions.
   */
  lemma EditsKeepDateKeys(form: JobForm, index: int, name: string, defaultSteps: seq<string>)
    ensures AddStep(form).stepDates == form.stepDates
    ensures RemoveStep(form, index).stepDates == form.stepDates
    ensures ResetSteps(form, defaultSteps).stepDates == form.stepDates
    ensures 0 <= index < |form.steps| ==> UpdateStepName(form, index, name).stepDates == form.stepDates
    ensures SelectCurrent(form, index).stepDates == form.stepDates
  {
  }
}
