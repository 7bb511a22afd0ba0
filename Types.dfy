/**
 * The records that the job tracker keeps in memory (types.ts) and the
 * default pipeline (constants.ts), together with the few JavaScript
 * truthiness tests that the rest of the model relies on.
 */
module Types {

  datatype Option<+T> = None | Some(value: T)

  /** The status of the stage an application is currently in. */
  datatype StepStatus = InProgress | Waiting | Rejected

  /** internship / campus (new graduate) / social (experienced hire). */
  datatype JobType = Internship | Campus | Social

  /**
   * An application as the UI holds it after a read. The stored job type and
   * status are copied through unchecked, so either may be missing; the stage
   * index is whatever the store holds and is not clamped to the stage list.
   */
  datatype Job = Job(
    id: string,
    company: string,
    position: string,
    jobType: Option<JobType>,
    salary: Option<string>,
    notes: Option<string>,
    steps: seq<string>,
    currentStepIndex: int,
    currentStepStatus: Option<StepStatus>,
    stepDates: map<int, int>,
    createdAt: int,
    updatedAt: int)

  /** The signed-in user as far as the core needs it. */
  datatype User = User(id: string, email: string)

  const APPLIED_NAME: string := "已投递"
  const SCREENING_NAME: string := "初筛"
  const OC_NAME: string := "OC"
  const NEW_STEP_NAME: string := "新节点"

  /** The pipeline every new application starts from, unless reconfigured. */
  const DEFAULT_STEPS: seq<string> := ["已投递", "初筛", "笔试", "一面", "二面", "HR面", "OC"]

  /** `!!s` for an optional string: present and not the empty string. */
  predicate Truthy(s: Option<string>)
  {
    s.Some? && s.value != ""
  }

  /** `!!dates[k]`: the key is present and its timestamp is not 0. */
  predicate HasTimestamp(dates: map<int, int>, k: int)
  {
    k in dates && dates[k] != 0
  }
}
