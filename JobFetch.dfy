/**
 * Reading the applications (App.tsx, fetchJobs): which query runs, how each
 * stored row becomes an in-memory job, the stale-screening sweep applied to
 * the owner's own records, and the status write-back it schedules.
 */
module JobFetch {
  import opened Types
  import opened StageEngine

  /**
   * A stored row, with its timestamps already parsed to epoch milliseconds.
   * The date map and the stage list may be absent (null) in the store.
   */
  datatype Row = Row(
    id: string,
    company: string,
    position: string,
    jobType: Option<JobType>,
    salary: Option<string>,
    notes: Option<string>,
    steps: Option<seq<string>>,
    currentStepIndex: int,
    currentStepStatus: Option<StepStatus>,
    stepDates: Option<map<int, int>>,
    createdAt: int,
    updatedAt: int)

  /** The query fetchJobs issues: by owner, by owner e-mail (view mode), or none. */
  datatype Query = ByOwner(userId: string) | ByEmail(email: string) | NoQuery

  function FetchQuery(userId: Option<string>, targetEmail: Option<string>): (q: Query)
    ensures q.ByOwner? <==> Truthy(userId)
    ensures q.ByEmail? <==> !Truthy(userId) && Truthy(targetEmail)
    ensures q.ByOwner? ==> q.userId == userId.value
    ensures q.ByEmail? ==> q.email == targetEmail.value
  {
    if Truthy(userId) then ByOwner(userId.value)
    else if Truthy(targetEmail) then ByEmail(targetEmail.value)
    else NoQuery
  }

  /** Ten days in milliseconds. */
  const TEN_DAYS: int := 10 * 24 * 60 * 60 * 1000

  /** The applied stage counts as entered at creation unless the row already has a date for it. */
  function Backfill(dates: map<int, int>, createdAt: int): (r: map<int, int>)
    ensures 0 in r
    ensures HasTimestamp(dates, 0) ==> r == dates
    ensures !HasTimestamp(dates, 0) ==> r[0] == createdAt
    ensures r.Keys == dates.Keys + {0}
    ensures forall k :: k in dates && k != 0 ==> r[k] == dates[k]
  {
    if HasTimestamp(dates, 0) then dates else dates[0 := createdAt]
  }

  /** The in-memory job for a stored row, before any sweep. */
  function MapRow(row: Row): (j: Job)
    ensures j.stepDates == Backfill(if row.stepDates.Some? then row.stepDates.value else map[], row.createdAt)
    ensures j.steps == if row.steps.Some? then row.steps.value else []
    ensures && j.id == row.id && j.company == row.company && j.position == row.position
            && j.jobType == row.jobType && j.salary == row.salary && j.notes == row.notes
            && j.currentStepIndex == row.currentStepIndex && j.currentStepStatus == row.currentStepStatus
            && j.createdAt == row.createdAt && j.updatedAt == row.updatedAt
  {
    var dates := if row.stepDates.Some? then row.stepDates.value else map[];
    Job(row.id, row.company, row.position, row.jobType, row.salary, row.notes,
        if row.steps.Some? then row.steps.value else [],
        row.currentStepIndex, row.currentStepStatus, Backfill(dates, row.createdAt),
        row.createdAt, row.updatedAt)
  }

  /** When the current stage was entered: its date, or the last update when it has none. */
  function EnteredAt(job: Job): (t: int)
    ensures HasTimestamp(job.stepDates, job.currentStepIndex) ==> t == job.stepDates[job.currentStepIndex]
    ensures !HasTimestamp(job.stepDates, job.currentStepIndex) ==> t == job.updatedAt
  {
    if HasTimestamp(job.stepDates, job.currentStepIndex)
    then job.stepDates[job.currentStepIndex] else job.updatedAt
  }

  /** A screening stage left waiting for more than ten days. */
  predicate IsStale(job: Job, now: int)
    ensures IsStale(job, now) ==>
      job.currentStepStatus == Some(Waiting) && EnteredAt(job) != 0 && EnteredAt(job) + TEN_DAYS < now
  {
    && IsScreening(job.steps, job.currentStepIndex)
    && job.currentStepStatus == Some(Waiting)
    && EnteredAt(job) != 0
    && now - EnteredAt(job) > TEN_DAYS
  }

  /** A stale job stays stale as time goes on; within ten days of its entry it is not stale. */
  lemma StaleStaysStale(job: Job, now: int, later: int)
    requires later >= now
    ensures IsStale(job, now) ==> IsStale(job, later)
    ensures now - EnteredAt(job) <= TEN_DAYS ==> !IsStale(job, now)
  {
  }

  /** The stale-screening sweep: a stale job is marked rejected, nothing else moves. */
  function Sweep(job: Job, now: int): (r: Job)
    ensures r == job || r == job.(currentStepStatus := Some(Rejected))
    ensures r.currentStepStatus == Some(Rejected) ==> IsStale(job, now) || job.currentStepStatus == Some(Rejected)
    ensures IsStale(job, now) ==> r.currentStepStatus == Some(Rejected)
  {
    if IsStale(job, now) then job.(currentStepStatus := Some(Rejected)) else job
  }

  /** The sweep changes a job exactly when that job was stale. */
  lemma SweepChangesIffStale(job: Job, now: int)
    ensures Sweep(job, now) != job <==> IsStale(job, now)
  {
  }

  /** A swept job is never stale, so sweeping twice is sweeping once. */
  lemma SweepIdempotent(job: Job, now: int)
    ensures !IsStale(Sweep(job, now), now)
    ensures Sweep(Sweep(job, now), now) == Sweep(job, now)
  {
  }

  /** What a read yields for one row: the owner's reads are swept, other reads are not. */
  function ReadRow(row: Row, owner: bool, now: int): (j: Job)
    ensures !owner ==> j == MapRow(row)
    ensures j == MapRow(row) || (owner && j == MapRow(row).(currentStepStatus := Some(Rejected)))
    ensures owner ==> !IsStale(j, now)
    ensures owner ==> (j != MapRow(row) <==> IsStale(MapRow(row), now))
  {
    SweepChangesIffStale(MapRow(row), now);
    if owner then Sweep(MapRow(row), now) else MapRow(row)
  }

  /** `data.map(...)`: one job per row, in the rows' order. */
  function ReadRows(rows: seq<Row>, owner: bool, now: int): (r: seq<Job>)
    ensures |r| == |rows|
    ensures forall i :: 0 <= i < |rows| ==> r[i] == ReadRow(rows[i], owner, now)
  {
    if rows == [] then []
    else ReadRows(rows[..|rows| - 1], owner, now) + [ReadRow(rows[|rows| - 1], owner, now)]
  }

  /** The rows the owner's sweep flips, in the rows' order. */
  function FlippedIds(rows: seq<Row>, owner: bool, now: int): (ids: seq<string>)
    ensures |ids| <= |rows|
    ensures !owner ==> ids == []
  {
    if rows == [] then []
    else
      var rest := FlippedIds(rows[..|rows| - 1], owner, now);
      if owner && IsStale(MapRow(rows[|rows| - 1]), now) then rest + [rows[|rows| - 1].id] else rest
  }

  /** Every id on the write-back list is a row that was flipped, and every flipped row is on it. */
  lemma FlippedIdsExact(rows: seq<Row>, owner: bool, now: int)
    ensures forall id :: id in FlippedIds(rows, owner, now) ==>
      exists i :: 0 <= i < |rows| && rows[i].id == id && ReadRow(rows[i], owner, now) != MapRow(rows[i])
    ensures forall i :: 0 <= i < |rows| && ReadRow(rows[i], owner, now) != MapRow(rows[i]) ==>
      rows[i].id in FlippedIds(rows, owner, now)
  {
    FlippedIdsSound(rows, owner, now);
    FlippedIdsComplete(rows, owner, now);
    forall i | 0 <= i < |rows| { SweepChangesIffStale(MapRow(rows[i]), now); }
  }

  lemma {:induction false} FlippedIdsSound(rows: seq<Row>, owner: bool, now: int)
    ensures forall id :: id in FlippedIds(rows, owner, now) ==>
      exists i :: 0 <= i < |rows| && rows[i].id == id && owner && IsStale(MapRow(rows[i]), now)
  {
    if rows != [] {
      var init := rows[..|rows| - 1];
      FlippedIdsSound(init, owner, now);
      forall id | id in FlippedIds(init, owner, now)
        ensures exists i :: 0 <= i < |rows| && rows[i].id == id && owner && IsStale(MapRow(rows[i]), now)
      {
        var i :| 0 <= i < |init| && init[i].id == id && owner && IsStale(MapRow(init[i]), now);
        assert rows[i] == init[i];
      }
    }
  }

  lemma {:induction false} FlippedIdsComplete(rows: seq<Row>, owner: bool, now: int)
    ensures forall i :: 0 <= i < |rows| && owner && IsStale(MapRow(rows[i]), now) ==>
      rows[i].id in FlippedIds(rows, owner, now)
  {
    if rows != [] {
      var init := rows[..|rows| - 1];
      FlippedIdsComplete(init, owner, now);
      forall i | 0 <= i < |init| ensures init[i] == rows[i] {}
    }
  }

  /** After an owner read no job is left stale. */
  lemma OwnerReadLeavesNothingStale(rows: seq<Row>, now: int)
    ensures forall i :: 0 <= i < |rows| ==> !IsStale(ReadRows(rows, true, now)[i], now)
  {
    forall i | 0 <= i < |rows| { SweepIdempotent(MapRow(rows[i]), now); }
  }

  /** Reading one more row appends its job and, when it flips, its id. */
  lemma PrefixStep(rows: seq<Row>, i: nat, owner: bool, now: int)
    requires i < |rows|
    ensures ReadRows(rows[..i + 1], owner, now) == ReadRows(rows[..i], owner, now) + [ReadRow(rows[i], owner, now)]
    ensures FlippedIds(rows[..i + 1], owner, now) ==
      FlippedIds(rows[..i], owner, now) + (if owner && IsStale(MapRow(rows[i]), now) then [rows[i].id] else [])
  {
    var prefix := rows[..i + 1];
    assert prefix[..i] == rows[..i] && prefix[i] == rows[i];
  }

  /** The write-back for one flipped row: only the status and the update time. */
  datatype StatusWrite = StatusWrite(id: string, status: StepStatus, updatedAt: int)

  /** What fetchJobs hands back: the new job list (None leaves it as it was) and the writes. */
  datatype FetchResult = FetchResult(jobs: Option<seq<Job>>, writes: seq<StatusWrite>)

  /**
   * The `data.map` pass: maps every row, sweeps the owner's rows and collects
   * the ids of the rows the sweep flipped.
   */
  method MapAndSweep(rows: seq<Row>, owner: bool, now: int) returns (mapped: seq<Job>, updates: seq<string>)
    ensures mapped == ReadRows(rows, owner, now)
    ensures updates == FlippedIds(rows, owner, now)
  {
    mapped, updates := [], [];
    var i := 0;
    while i < |rows|
      invariant 0 <= i <= |rows|
      invariant mapped == ReadRows(rows[..i], owner, now)
      invariant updates == FlippedIds(rows[..i], owner, now)
    {
      var row := rows[i];
      var job := MapRow(row);
      PrefixStep(rows, i, owner, now);
      if owner && IsStale(job, now) {
        job := job.(currentStepStatus := Some(Rejected));
        updates := updates + [row.id];
      }
      assert job == ReadRow(row, owner, now);
      mapped := mapped + [job];
      i := i + 1;
    }
    assert rows[..|rows|] == rows;
  }

  /** `updates.map(id => update(...))`, issued only for an owner read with something to write. */
  function WriteBack(updates: seq<string>, owner: bool, now: int): (writes: seq<StatusWrite>)
    ensures owner ==> |writes| == |updates|
    ensures !owner ==> writes == []
    ensures forall k :: 0 <= k < |writes| ==> writes[k] == StatusWrite(updates[k], Rejected, now)
  {
    if |updates| > 0 && owner
    then seq(|updates|, k requires 0 <= k < |updates| => StatusWrite(updates[k], Rejected, now))
    else []
  }

  /**
   * fetchJobs. `data` is the store's answer to FetchQuery(userId, targetEmail)
   * (None when the query yields no data); it is not consulted when no query
   * runs.
   */
  method FetchJobs(userId: Option<string>, targetEmail: Option<string>, data: Option<seq<Row>>, now: int)
    returns (result: FetchResult)
    ensures FetchQuery(userId, targetEmail).NoQuery? ==> result == FetchResult(Some([]), [])
    ensures !FetchQuery(userId, targetEmail).NoQuery? && data.None? ==> result == FetchResult(None, [])
    ensures !FetchQuery(userId, targetEmail).NoQuery? && data.Some? ==>
      var owner := Truthy(userId);
      result == FetchResult(Some(ReadRows(data.value, owner, now)),
                            WriteBack(FlippedIds(data.value, owner, now), owner, now))
  {
    var query := FetchQuery(userId, targetEmail);
    if query.NoQuery? {
      return FetchResult(Some([]), []);
    }
    if data.None? {
      return FetchResult(None, []);
    }
    var owner := Truthy(userId);
    var mapped, updates := MapAndSweep(data.value, owner, now);
    return FetchResult(Some(mapped), WriteBack(updates, owner, now));
  }

  /** A view-mode read (by e-mail) never writes, however old its records are. */
  lemma ViewReadWritesNothing(email: string, rows: seq<Row>, now: int)
    requires email != ""
    ensures FlippedIds(rows, false, now) == []
    ensures WriteBack(FlippedIds(rows, false, now), false, now) == []
    ensures ReadRows(rows, false, now) == seq(|rows|, i requires 0 <= i < |rows| => MapRow(rows[i]))
    ensures FetchQuery(None, Some(email)) == ByEmail(email)
  {
  }

  /**
   * The screening scenario: an application is clicked into screening, and an
   * owner read eleven days later rejects it without moving its stage.
   */
  lemma ScreeningScenario(created: int, clicked: int)
    requires clicked >= created > 0
    ensures var job := Job("j", "c", "p", Some(Internship), None, None, DEFAULT_STEPS, 0,
                           Some(InProgress), map[0 := created], created, created);
      var after := AfterClick(job, 1, clicked);
      var later := clicked + 11 * 24 * 60 * 60 * 1000;
      && after.currentStepIndex == 1
      && after.currentStepStatus == Some(Waiting)
      && after.stepDates == map[0 := created, 1 := clicked]
      && Sweep(after, later).currentStepStatus == Some(Rejected)
      && Sweep(after, later).currentStepIndex == 1
  {
  }
  /**
   * A click can be undone by the re-fetch that follows it: re-clicking a
   * rejected screening stage entered eleven days earlier writes waiting, and
   * the owner read that the handler then runs finds the job stale and writes
   * rejected again.
   */
  lemma RefetchUndoesScreeningReclick(entered: int)
    requires entered > 0
    ensures var job := Job("j", "c", "p", Some(Internship), None, None, DEFAULT_STEPS, 1,
                           Some(Rejected), map[0 := entered, 1 := entered], entered, entered);
      var now := entered + 11 * 24 * 60 * 60 * 1000;
      var after := AfterClick(job, 1, now);
      && after.currentStepStatus == Some(Waiting)
      && IsStale(after, now)
      && Sweep(after, now) == after.(currentStepStatus := Some(Rejected))
  {
    var job := Job("j", "c", "p", Some(Internship), None, None, DEFAULT_STEPS, 1,
                   Some(Rejected), map[0 := entered, 1 := entered], entered, entered);
    ScreeningCycle(job, entered + 11 * 24 * 60 * 60 * 1000);
  }
}
