/**
 * The stage engine behind a click on a pipeline node (App.tsx,
 * handleUpdateStep): re-clicking the current stage cycles its status,
 * clicking another stage jumps there and stamps the date, re-clicking a
 * current offer ("OC") stage does nothing.
 */
module StageEngine {
  import opened Types
  import opened Text

  /** `steps[i]`, which JavaScript reads as undefined outside the list. */
  function StepName(steps: seq<string>, i: int): (r: Option<string>)
    ensures r.Some? <==> 0 <= i < |steps|
    ensures r.Some? ==> r.value == steps[i]
  {
    if 0 <= i < |steps| then Some(steps[i]) else None
  }

  /** The screening stage: named 初筛, or simply the second stage. */
  predicate IsScreening(steps: seq<string>, i: int)
    ensures IsScreening(steps, i) <==> i == 1 || (0 <= i < |steps| && steps[i] == SCREENING_NAME)
  {
    StepName(steps, i) == Some(SCREENING_NAME) || i == 1
  }

  /** On the default pipeline the screening stage is the second one and no other. */
  lemma DefaultScreening(i: int)
    ensures IsScreening(DEFAULT_STEPS, i) <==> i == 1
  {
    if 0 <= i < |DEFAULT_STEPS| && i != 1 {
      assert DEFAULT_STEPS[i] != SCREENING_NAME by {
        assert DEFAULT_STEPS[i][0] != SCREENING_NAME[0];
      }
    }
  }

  /**
   * The name of the terminal offer stage: its upper-case form is "OC", which
   * holds for the four spellings of it and for nothing else.
   */
  predicate IsOCName(name: string)
    ensures IsOCName(name) <==> name in {"OC", "Oc", "oC", "oc"}
  {
    UpperIsOC(name);
    Upper(name) == OC_NAME
  }

  /** The stage at `i` is the terminal offer stage. */
  predicate IsOC(steps: seq<string>, i: int)
    ensures IsOC(steps, i) <==> 0 <= i < |steps| && steps[i] in {"OC", "Oc", "oC", "oc"}
  {
    StepName(steps, i).Some? && IsOCName(steps[i])
  }

  const SCREENING_FLOW: seq<StepStatus> := [Waiting, Rejected]
  const STANDARD_FLOW: seq<StepStatus> := [InProgress, Waiting, Rejected]

  /** The status cycle that applies to a stage. */
  function StatusFlow(screening: bool): (flow: seq<StepStatus>)
    ensures |flow| >= 2
    ensures Rejected in flow && Waiting in flow
    ensures InProgress in flow <==> !screening
  {
    if screening then SCREENING_FLOW else STANDARD_FLOW
  }

  /** `flow.indexOf(s)`: the first position holding `s`, or -1. */
  function IndexOf(flow: seq<StepStatus>, s: Option<StepStatus>): (k: int)
    ensures -1 <= k < |flow|
    ensures k >= 0 ==> Some(flow[k]) == s && forall j :: 0 <= j < k ==> Some(flow[j]) != s
    ensures k == -1 <==> forall j :: 0 <= j < |flow| ==> Some(flow[j]) != s
  {
    if flow == [] then -1
    else if Some(flow[0]) == s then 0
    else
      var k := IndexOf(flow[1..], s);
      if k == -1 then -1 else k + 1
  }

  /**
   * `flow[(flow.indexOf(s) + 1) % flow.length]`. The position is never
   * negative (the smallest index is -1) and always in range, so the
   * source's `|| flow[0]` fallback never applies.
   */
  function NextInFlow(flow: seq<StepStatus>, s: Option<StepStatus>): (r: StepStatus)
    requires |flow| > 0
    ensures r in flow
  {
    flow[(IndexOf(flow, s) + 1) % |flow|]
  }

  /** The next status after a status that sits at position `p` of a duplicate-free flow. */
  lemma NextAfterPosition(flow: seq<StepStatus>, p: int)
    requires 0 <= p < |flow|
    requires forall a, b :: 0 <= a < b < |flow| ==> flow[a] != flow[b]
    ensures NextInFlow(flow, Some(flow[p])) == if p + 1 < |flow| then flow[p + 1] else flow[0]
  {
    var k := IndexOf(flow, Some(flow[p]));
    assert k != -1;
    assert flow[k] == flow[p];
    assert k == p;
    if p + 1 < |flow| {
      assert (p + 1) % |flow| == p + 1;
    } else {
      assert (p + 1) % |flow| == 0;
    }
  }

  /** A status outside the flow (or a missing one) restarts it at its first element. */
  lemma NextOutsideFlow(flow: seq<StepStatus>, s: Option<StepStatus>)
    requires |flow| > 0
    requires forall j :: 0 <= j < |flow| ==> Some(flow[j]) != s
    ensures NextInFlow(flow, s) == flow[0]
  {
  }

  /** The result of one click: the new index, status and date map. */
  datatype StageChange = StageChange(index: int, status: StepStatus, dates: map<int, int>)

  /**
   * The decision of handleUpdateStep for a job and a clicked index. None
   * means nothing is written: the current stage is the offer stage.
   */
  function ClickStep(job: Job, target: int, now: int): (r: Option<StageChange>)
    ensures r.None? <==> target == job.currentStepIndex && IsOC(job.steps, target)
    // re-click: same index, same dates, the next status of the stage's cycle
    ensures r.Some? && target == job.currentStepIndex ==>
      && r.value.index == target
      && r.value.dates == job.stepDates
      && r.value.status in StatusFlow(IsScreening(job.steps, target))
    // jump: the target becomes current, entered now, every other date kept
    ensures r.Some? && target != job.currentStepIndex ==>
      && r.value.index == target
      && r.value.status == (if IsScreening(job.steps, target) then Waiting else InProgress)
      && r.value.dates.Keys == job.stepDates.Keys + {target}
      && r.value.dates[target] == now
      && forall k :: k in job.stepDates && k != target ==> r.value.dates[k] == job.stepDates[k]
  {
    var screening := IsScreening(job.steps, target);
    if target == job.currentStepIndex then
      if IsOC(job.steps, target) then None
      else Some(StageChange(target, NextInFlow(StatusFlow(screening), job.currentStepStatus), job.stepDates))
    else
      Some(StageChange(target, if screening then Waiting else InProgress, job.stepDates[target := now]))
  }

  /**
   * The stored record right after the click's write, before the handler's
   * re-fetch (whose owner sweep may change the status again).
   */
  function AfterClick(job: Job, target: int, now: int): (r: Job)
    ensures r.id == job.id && r.steps == job.steps && r.createdAt == job.createdAt
    ensures ClickStep(job, target, now).None? ==> r == job
    ensures ClickStep(job, target, now).Some? ==>
      var c := ClickStep(job, target, now).value;
      r == job.(currentStepIndex := c.index, currentStepStatus := Some(c.status),
                stepDates := c.dates, updatedAt := now)
  {
    match ClickStep(job, target, now)
    case None => job
    case Some(c) => job.(currentStepIndex := c.index, currentStepStatus := Some(c.status),
                         stepDates := c.dates, updatedAt := now)
  }

  /** Re-clicking a current ordinary stage steps through in-progress, waiting, rejected. */
  lemma StandardCycle(job: Job, now: int)
    requires !IsScreening(job.steps, job.currentStepIndex) && !IsOC(job.steps, job.currentStepIndex)
    ensures var r := AfterClick(job, job.currentStepIndex, now);
      && r.currentStepIndex == job.currentStepIndex
      && r.stepDates == job.stepDates
      && r.currentStepStatus == Some(match job.currentStepStatus
           case Some(InProgress) => Waiting
           case Some(Waiting) => Rejected
           case _ => InProgress)
  {
    var flow := STANDARD_FLOW;
    match job.currentStepStatus
    case Some(InProgress) => NextAfterPosition(flow, 0);
    case Some(Waiting) => NextAfterPosition(flow, 1);
    case Some(Rejected) => NextAfterPosition(flow, 2);
    case None => NextOutsideFlow(flow, None);
  }

  /**
   * Re-clicking a current screening stage alternates waiting and rejected; a
   * status outside that cycle (in-progress, or none) becomes waiting.
   */
  lemma ScreeningCycle(job: Job, now: int)
    requires IsScreening(job.steps, job.currentStepIndex) && !IsOC(job.steps, job.currentStepIndex)
    ensures var r := AfterClick(job, job.currentStepIndex, now);
      && r.currentStepIndex == job.currentStepIndex
      && r.stepDates == job.stepDates
      && r.currentStepStatus == Some(if job.currentStepStatus == Some(Waiting) then Rejected else Waiting)
  {
    var flow := SCREENING_FLOW;
    match job.currentStepStatus
    case Some(Waiting) => NextAfterPosition(flow, 0);
    case Some(Rejected) => NextAfterPosition(flow, 1);
    case _ => NextOutsideFlow(flow, job.currentStepStatus);
  }

  /** Three re-clicks on a current ordinary stage bring its status back. */
  lemma {:induction false} ThreeClicksRestore(job: Job, now1: int, now2: int, now3: int)
    requires !IsScreening(job.steps, job.currentStepIndex) && !IsOC(job.steps, job.currentStepIndex)
    requires job.currentStepStatus.Some?
    ensures var i := job.currentStepIndex;
      var r := AfterClick(AfterClick(AfterClick(job, i, now1), i, now2), i, now3);
      r.currentStepStatus == job.currentStepStatus && r.currentStepIndex == i && r.stepDates == job.stepDates
  {
    var i := job.currentStepIndex;
    var j1 := AfterClick(job, i, now1);
    StandardCycle(job, now1);
    var j2 := AfterClick(j1, i, now2);
    StandardCycle(j1, now2);
    StandardCycle(j2, now3);
  }

  /** Two re-clicks on a current screening stage that is waiting or rejected bring its status back. */
  lemma {:induction false} TwoScreeningClicksRestore(job: Job, now1: int, now2: int)
    requires IsScreening(job.steps, job.currentStepIndex) && !IsOC(job.steps, job.currentStepIndex)
    requires job.currentStepStatus == Some(Waiting) || job.currentStepStatus == Some(Rejected)
    ensures var i := job.currentStepIndex;
      var r := AfterClick(AfterClick(job, i, now1), i, now2);
      r.currentStepStatus == job.currentStepStatus && r.currentStepIndex == i && r.stepDates == job.stepDates
  {
    var i := job.currentStepIndex;
    ScreeningCycle(job, now1);
    ScreeningCycle(AfterClick(job, i, now1), now2);
  }

  /**
   * A jump always stamps the target with the click time, even when the stage
   * was entered before: an earlier date is overwritten, not kept.
   */
  lemma JumpOverwritesDate(job: Job, target: int, now: int)
    requires target != job.currentStepIndex && target in job.stepDates
    ensures AfterClick(job, target, now).stepDates[target] == now
    ensures now != job.stepDates[target] ==>
      AfterClick(job, target, now).stepDates[target] != job.stepDates[target]
  {
  }

  /** What handleUpdateStep writes for the job with that id. */
  datatype StepWrite = StepWrite(id: string, index: int, status: StepStatus, dates: map<int, int>, updatedAt: int)

  /** The position of the first job with that id, or -1. */
  function FindIndex(jobs: seq<Job>, id: string): (k: int)
    ensures -1 <= k < |jobs|
    ensures k >= 0 ==> jobs[k].id == id && forall m :: 0 <= m < k ==> jobs[m].id != id
    ensures k == -1 <==> forall m :: 0 <= m < |jobs| ==> jobs[m].id != id
  {
    if jobs == [] then -1
    else if jobs[0].id == id then 0
    else
      var k := FindIndex(jobs[1..], id);
      if k == -1 then -1 else k + 1
  }

  /** `jobs.find(j => j.id === id)`. */
  function FindJob(jobs: seq<Job>, id: string): Option<Job>
  {
    var k := FindIndex(jobs, id);
    if k >= 0 then Some(jobs[k]) else None
  }

  /**
   * handleUpdateStep: without a signed-in user, for an unknown id, or on a
   * re-click of a current offer stage nothing is written; otherwise the
   * click's index, status and dates are written with the click time.
   */
  function HandleUpdateStep(user: Option<User>, jobs: seq<Job>, id: string, target: int, now: int): (w: Option<StepWrite>)
    ensures user.None? ==> w.None?
    ensures (forall m :: 0 <= m < |jobs| ==> jobs[m].id != id) ==> w.None?
    ensures w.Some? <==> user.Some? && FindJob(jobs, id).Some? && ClickStep(FindJob(jobs, id).value, target, now).Some?
    ensures w.Some? ==>
      var c := ClickStep(FindJob(jobs, id).value, target, now).value;
      w.value == StepWrite(id, c.index, c.status, c.dates, now)
  {
    if user.None? then None
    else
      match FindJob(jobs, id)
      case None => None
      case Some(job) =>
        match ClickStep(job, target, now)
        case None => None
        case Some(c) => Some(StepWrite(id, c.index, c.status, c.dates, now))
  }

  /** A re-click on a current offer stage writes nothing, whoever is signed in. */
  lemma OfferReclickWritesNothing(user: Option<User>, jobs: seq<Job>, k: int, now: int)
    requires 0 <= k < |jobs|
    requires forall m :: 0 <= m < k ==> jobs[m].id != jobs[k].id
    requires IsOC(jobs[k].steps, jobs[k].currentStepIndex)
    ensures HandleUpdateStep(user, jobs, jobs[k].id, jobs[k].currentStepIndex, now).None?
  {
    assert FindIndex(jobs, jobs[k].id) == k;
  }
}
