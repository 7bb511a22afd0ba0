/**
 * The rest of the page component (App.tsx): which mode the page is in, what
 * saving the edit form writes, the dashboard counts and the search filter.
 */
module App {
  import opened Types
  import opened Text
  import opened JobModal

  /** `isManageMode`: someone is signed in. */
  predicate ManageMode(user: Option<User>)
  {
    user.Some?
  }

  /** `isViewMode`: a visitor is looking at another user's records by e-mail. */
  predicate ViewMode(user: Option<User>, viewModeEmail: Option<string>)
  {
    Truthy(viewModeEmail) && user.None?
  }

  /** The page is never in both modes; with neither it shows only the sign-in button. */
  lemma ModesExclusive(user: Option<User>, viewModeEmail: Option<string>)
    ensures !(ManageMode(user) && ViewMode(user, viewModeEmail))
    ensures ViewMode(user, viewModeEmail) ==> viewModeEmail.value != ""
  {
  }

  /** The record a save sends to the store, stamped with the owner's identity. */
  datatype Payload = Payload(
    userId: string, email: string, company: string, position: string, jobType: JobType,
    salary: Option<string>, notes: Option<string>, steps: seq<string>,
    currentStepIndex: int, currentStepStatus: StepStatus, stepDates: map<int, int>, updatedAt: int)

  datatype SaveAction = NotSignedIn | UpdateRecord(id: string, payload: Payload) | InsertRecord(payload: Payload)

  /**
   * handleSaveJob: refused without a user; an edit (a non-empty id) writes
   * the form's dates back, a new record starts with the applied stage
   * entered now and nothing else.
   */
  function SaveJob(user: Option<User>, form: JobForm, id: Option<string>, now: int): (a: SaveAction)
    ensures a.NotSignedIn? <==> user.None?
    ensures a.UpdateRecord? <==> user.Some? && Truthy(id)
    ensures a.UpdateRecord? ==> a.id == id.value && a.payload.stepDates == form.stepDates
    ensures a.InsertRecord? ==> a.payload.stepDates == map[0 := now]
    ensures !a.NotSignedIn? ==>
      var p := a.payload;
      && p.userId == user.value.id && p.email == user.value.email && p.updatedAt == now
      && p.company == form.company && p.position == form.position && p.jobType == form.jobType
      && p.salary == form.salary && p.notes == form.notes && p.steps == form.steps
      && p.currentStepIndex == form.currentStepIndex && p.currentStepStatus == form.currentStepStatus
  {
    if user.None? then NotSignedIn
    else
      var dates := if Truthy(id) then form.stepDates else map[0 := now];
      var p := Payload(user.value.id, user.value.email, form.company, form.position, form.jobType,
                       form.salary, form.notes, form.steps, form.currentStepIndex,
                       form.currentStepStatus, dates, now);
      if Truthy(id) then UpdateRecord(id.value, p) else InsertRecord(p)
  }

  /** "进行中": not rejected and not yet on the last stage. */
  predicate IsActive(j: Job)
  {
    j.currentStepStatus != Some(Rejected) && j.currentStepIndex < |j.steps| - 1
  }

  /** "已通过": not rejected and on the last stage. */
  predicate IsPassed(j: Job)
  {
    j.currentStepStatus != Some(Rejected) && j.currentStepIndex == |j.steps| - 1
  }

  /** "已挂": rejected. */
  predicate IsRejected(j: Job)
  {
    j.currentStepStatus == Some(Rejected)
  }

  /** `jobs.filter(p).length`. */
  function CountWhere(jobs: seq<Job>, p: Job -> bool): (n: nat)
    ensures n <= |jobs|
  {
    if jobs == [] then 0 else (if p(jobs[0]) then 1 else 0) + CountWhere(jobs[1..], p)
  }

  /**
   * When every job's stage index is below its stage count, the three
   * dashboard counts split the applications without overlap.
   */
  lemma {:induction false} StatsPartition(jobs: seq<Job>)
    requires forall i :: 0 <= i < |jobs| ==> jobs[i].currentStepIndex < |jobs[i].steps|
    ensures CountWhere(jobs, IsActive) + CountWhere(jobs, IsPassed) + CountWhere(jobs, IsRejected) == |jobs|
  {
    if jobs != [] {
      StatsPartition(jobs[1..]);
    }
  }

  /** No job is counted twice, whatever its index. */
  lemma StatsDisjoint(j: Job)
    ensures !(IsActive(j) && IsPassed(j)) && !(IsActive(j) && IsRejected(j)) && !(IsPassed(j) && IsRejected(j))
  {
  }

  /** The search test: the term, lower-cased, occurs in the lower-cased company or position. */
  predicate Matches(j: Job, term: string)
  {
    Contains(Lower(j.company), Lower(term)) || Contains(Lower(j.position), Lower(term))
  }

  /** `filteredJobs`: the matching jobs, in their order. */
  function SearchJobs(jobs: seq<Job>, term: string): (r: seq<Job>)
    ensures |r| <= |jobs|
    ensures forall i :: 0 <= i < |r| ==> Matches(r[i], term) && r[i] in jobs
    ensures forall i :: 0 <= i < |jobs| && Matches(jobs[i], term) ==> jobs[i] in r
  {
    if jobs == [] then []
    else if Matches(jobs[0], term) then [jobs[0]] + SearchJobs(jobs[1..], term)
    else SearchJobs(jobs[1..], term)
  }

  /**
   * The filter keeps the jobs in their order: it distributes over
   * concatenation and keeps or drops a single job by the search test.
   */
  lemma {:induction false} SearchConcat(a: seq<Job>, b: seq<Job>, j: Job, term: string)
    ensures SearchJobs(a + b, term) == SearchJobs(a, term) + SearchJobs(b, term)
    ensures SearchJobs([j], term) == if Matches(j, term) then [j] else []
  {
    if a == [] {
      assert a + b == b;
    } else {
      assert (a + b)[0] == a[0] && (a + b)[1..] == a[1..] + b;
      SearchConcat(a[1..], b, j, term);
    }
  }

  /** An empty search box shows every job. */
  lemma {:induction false} EmptySearchKeepsAll(jobs: seq<Job>)
    ensures SearchJobs(jobs, "") == jobs
  {
    if jobs != [] {
      EmptySearchKeepsAll(jobs[1..]);
    }
  }

  /** Searching within the result of the same search changes nothing. */
  lemma {:induction false} SearchIdempotent(jobs: seq<Job>, term: string)
    ensures SearchJobs(SearchJobs(jobs, term), term) == SearchJobs(jobs, term)
  {
    if jobs != [] {
      SearchIdempotent(jobs[1..], term);
    }
  }

  /** The search ignores the case of ASCII letters in the term. */
  lemma SearchIgnoresCase(jobs: seq<Job>, term: string)
    ensures SearchJobs(jobs, Upper(term)) == SearchJobs(jobs, term)
  {
    LowerOfUpper(term);
    SearchSameLower(jobs, Upper(term), term);
  }

  lemma LowerOfUpper(s: string)
    ensures Lower(Upper(s)) == Lower(s)
  {
    forall i | 0 <= i < |s| ensures Lower(Upper(s))[i] == Lower(s)[i] {
      var c := s[i];
      if 'a' <= c <= 'z' {
        assert UpperChar(c) as int == c as int - 32;
      }
    }
  }

  lemma {:induction false} SearchSameLower(jobs: seq<Job>, t1: string, t2: string)
    requires Lower(t1) == Lower(t2)
    ensures SearchJobs(jobs, t1) == SearchJobs(jobs, t2)
  {
    if jobs != [] {
      SearchSameLower(jobs[1..], t1, t2);
    }
  }
}
