# JobFlow stage engine in Dafny

JobFlow is a small job-application tracker. Each application moves along a
pipeline of named stages. The default pipeline is 已投递 (applied), 初筛
(screening), 笔试 (written test), 一面, 二面, HR面 and OC (offer). The
current stage carries a status: in progress, waiting or rejected. A map
records the date each stage was entered.

This project models the decision logic of that tracker and proves what it
promises:

- `StageEngine`: clicking a pipeline node (`handleUpdateStep`). Re-clicking
  the current stage cycles its status. Clicking another stage jumps there
  and stamps the date. Re-clicking a current offer stage does nothing.
- `JobFetch`: reading the applications (`fetchJobs`).
  - Stored rows are mapped to jobs.
  - The owner's screening-stage jobs that have waited more than ten days
    are rejected.
  - The status write-back for those jobs is collected.
  - The row pass is a method with a loop, proved against specification
    functions.
- `App`: the mode flags, what saving the edit form writes, the dashboard
  counts and the search filter.
- `JobModal`: the edit form's initial state and its stage-list edits.
- `Settings`: parsing the default-stage text box, its reset text, and the
  local password-length check.
- `Stepper`: how each pipeline node is drawn, with the style classes as
  enumerations.
- `Types`, `Text`: the records and the JavaScript string operations the
  code relies on.

The JavaScript semantics are written out where they matter:

- Truthiness: a timestamp of 0 and the empty string are false.
- `indexOf` returns -1 for a missing element.
- `toUpperCase`/`toLowerCase` are taken on ASCII letters.
- `trim` removes the ECMAScript white-space and line-terminator characters.
- `split('\n')` gives one empty piece for the empty string.
- `String.length` counts UTF-16 code units.

The React handlers that replace the form or page state with a new record are
modelled as functions from the old record to the new one. `addStep` and
`updateStepName` mutate only a fresh copy of the stage list before handing
it to React, so they are functions too.

The core has no `for` or `while` loop; it iterates through `map`, `filter`
and `find`. The `map`/`filter`/`find` calls that only compute a new list or
value are modelled as functions. The one pass that also collects into a
second array is `fetchJobs`'s `data.map` (App.tsx:107-118), which pushes each
rejected row's id onto `updates`. It is the method `JobFetch.MapAndSweep`,
with loop invariants tying the accumulators to `ReadRows` and `FlippedIds`.

A jump always overwrites the target stage's date with the click time
(App.tsx:205), even for a stage entered before. `StageEngine.ClickStep` and
`StageEngine.JumpOverwritesDate` state it.

## Model

| member | source | states |
|---|---|---|
| Types.Truthy | App.tsx:33 | definition, no contract: `!!s` on an optional string, present and not empty |
| Types.HasTimestamp | components/Stepper.tsx:95 | definition, no contract: `!!stepDates[k]`, present and not 0 |
| StageEngine.StepName | App.tsx:190 | `steps[i]` is a name exactly when `i` is on the list, and then it is that element |
| StageEngine.IsScreening | App.tsx:192 | a stage is a screening stage exactly when it is the second stage or its name is 初筛 |
| StageEngine.DefaultScreening | App.tsx:192 | on the default pipeline only the second stage is a screening stage |
| StageEngine.IsOCName | App.tsx:191 | a name is the offer name exactly when it is one of "OC", "Oc", "oC", "oc" |
| StageEngine.IsOC | App.tsx:190-191 | the stage at an index is the offer stage exactly when the index is on the list and its name is one of the four spellings of "OC" |
| StageEngine.StatusFlow | App.tsx:200 | the screening cycle is waiting/rejected, the other cycle also has in-progress; both hold waiting and rejected |
| StageEngine.IndexOf | App.tsx:201 | `indexOf`: the first position holding the status, or -1 exactly when no position holds it |
| StageEngine.NextInFlow | App.tsx:202 | the next status is always an element of the cycle, so the source's fallback to the first status never applies |
| StageEngine.NextAfterPosition | App.tsx:201-202 | in a duplicate-free cycle the status after position p is the one at p+1, wrapping to the first after the last |
| StageEngine.NextOutsideFlow | App.tsx:201-202 | a status outside the cycle (or a missing one) is followed by the cycle's first status |
| StageEngine.ClickStep | App.tsx:190-207 | nothing happens exactly on a re-click of a current offer stage; a re-click keeps index and dates and picks a status of the cycle; a jump makes the target current with waiting (screening) or in-progress, stamps the target with the click time and keeps every other date |
| StageEngine.AfterClick | App.tsx:194-214 | the stored record right after the click's write, before the re-fetch: unchanged when the click is ignored; otherwise the click's index, status and dates with the click time as update time, every other field unchanged |
| StageEngine.StandardCycle | App.tsx:198-202 | re-clicking a current ordinary stage goes in-progress → waiting → rejected → in-progress (a missing status → in-progress), index and dates unchanged |
| StageEngine.ScreeningCycle | App.tsx:198-202 | re-clicking a current screening stage goes waiting → rejected → waiting, and any other status → waiting, index and dates unchanged |
| StageEngine.ThreeClicksRestore | App.tsx:198-202 | three re-clicks on a current ordinary stage restore its status, index and dates |
| StageEngine.TwoScreeningClicksRestore | App.tsx:198-202 | two re-clicks on a waiting or rejected screening stage restore its status, index and dates |
| StageEngine.JumpOverwritesDate | App.tsx:203-206 | a jump to a stage that already has a date replaces that date with the click time |
| StageEngine.FindIndex | App.tsx:187 | `find` by id: the first job with the id, or -1 exactly when no job has it |
| StageEngine.FindJob | App.tsx:187 | definition, no contract: `jobs.find`, the job at `FindIndex` or none |
| StageEngine.HandleUpdateStep | App.tsx:185-216 | nothing is written without a user, for an unknown id, or on an ignored click; otherwise the write holds the click's index, status and dates and the click time |
| StageEngine.OfferReclickWritesNothing | App.tsx:190-199 | a re-click on a current offer stage never writes, whoever is signed in |
| JobFetch.FetchQuery | App.tsx:80-88 | the owner query runs exactly when the user id is truthy, the e-mail query exactly when only the e-mail is truthy |
| JobFetch.Backfill | App.tsx:99-101 | a missing or zero date for the applied stage becomes the creation time; every other key is kept, and a map with a date there is left alone |
| JobFetch.MapRow | App.tsx:98-105 | the date map is the backfilled stored map (empty when absent), missing stages become `[]`, and every other field is copied |
| JobFetch.EnteredAt | App.tsx:111 | the current stage's entry time is its recorded non-zero date, or else the last update time |
| JobFetch.IsStale | App.tsx:109-112 | a stale job is waiting, with a non-zero entry time more than ten days before now |
| JobFetch.StaleStaysStale | App.tsx:109-112 | a stale job stays stale at any later time, and no job is stale within ten days of its entry |
| JobFetch.Sweep | App.tsx:107-117 | a job is rejected by the sweep exactly when it is stale (screening stage, waiting, entered more than ten days ago by its stage date or last update); nothing else changes |
| JobFetch.SweepChangesIffStale | App.tsx:107-117 | the sweep changes a job if and only if the job is stale |
| JobFetch.SweepIdempotent | App.tsx:110-115 | a swept job is not stale, so sweeping it again changes nothing |
| JobFetch.ReadRow | App.tsx:107-132 | a non-owner read gives the mapped row; an owner read changes the mapped row exactly when it is stale, and then only by setting the status to rejected, and leaves the job not stale |
| JobFetch.ReadRows | App.tsx:97-133 | one job per row, in order, each the mapped row (swept for owner reads) |
| JobFetch.FlippedIds | App.tsx:95-117 | no id is collected on a non-owner read, and never more ids than rows |
| JobFetch.FlippedIdsExact | App.tsx:107-117 | every collected id belongs to a row the sweep changed, and every changed row's id is collected |
| JobFetch.FlippedIdsSound | App.tsx:113-114 | every collected id belongs to a stale row of an owner read |
| JobFetch.FlippedIdsComplete | App.tsx:113-114 | every stale row of an owner read has its id collected |
| JobFetch.OwnerReadLeavesNothingStale | App.tsx:107-117 | after an owner read no job is stale |
| JobFetch.PrefixStep | App.tsx:97-133 | reading one more row appends its job, and its id when the sweep flips it |
| JobFetch.MapAndSweep | App.tsx:95-133 | the loop returns exactly `ReadRows` and `FlippedIds` of the rows |
| JobFetch.WriteBack | App.tsx:135-142 | one write per collected id, setting only the status to rejected and the update time, and none on a non-owner read |
| JobFetch.FetchJobs | App.tsx:76-145 | no query yields an empty list and no writes; no data leaves the list unchanged; otherwise the mapped jobs and the write-back of the flipped ids |
| JobFetch.ViewReadWritesNothing | App.tsx:82-83 | a read by e-mail runs the e-mail query, maps rows without a sweep and writes nothing |
| JobFetch.ScreeningScenario | App.tsx:109-115 | an application clicked into screening and read by its owner eleven days later is rejected at the same stage |
| JobFetch.RefetchUndoesScreeningReclick | App.tsx:198-215 | re-clicking a rejected screening stage entered eleven days earlier writes waiting, and the owner re-read that follows finds the job stale and rejects it again |
| App.ManageMode | App.tsx:32 | definition, no contract: `isManageMode`, a user is signed in |
| App.ViewMode | App.tsx:33 | definition, no contract: `isViewMode`, a truthy e-mail and no user |
| App.ModesExclusive | App.tsx:32-33 | manage mode and view mode never hold together, and view mode needs a non-empty e-mail |
| App.SaveJob | App.tsx:149-173 | nothing is saved without a user; a non-empty id updates that record with the form's dates; otherwise a new record with only the applied stage dated now; every form field, the owner's id and e-mail and the update time are written |
| App.CountWhere | App.tsx:310-312 | a filter count never exceeds the number of jobs |
| App.IsActive | App.tsx:310 | definition, no contract: the 进行中 filter, not rejected and before the last stage |
| App.IsPassed | App.tsx:311 | definition, no contract: the 已通过 filter, not rejected and on the last stage |
| App.IsRejected | App.tsx:312 | definition, no contract: the 已挂 filter, rejected |
| App.StatsPartition | App.tsx:310-312 | when every stage index is below its stage count, the active, passed and rejected counts add up to the number of jobs |
| App.StatsDisjoint | App.tsx:310-312 | no job is counted under two headings |
| App.Matches | App.tsx:255-257 | definition, no contract: the lower-cased term occurs in the lower-cased company or position |
| App.SearchJobs | App.tsx:254-259 | every kept job matches and comes from the list, and every matching job is kept |
| App.SearchConcat | App.tsx:254-259 | the filter keeps the jobs in their order: it distributes over concatenation and keeps a single job exactly when its lower-cased company or position contains the lower-cased term |
| App.EmptySearchKeepsAll | App.tsx:254-259 | an empty search box shows every job in order |
| App.SearchIdempotent | App.tsx:254-259 | filtering the filtered list again changes nothing |
| App.SearchIgnoresCase | App.tsx:256-257 | upper-casing the term does not change the result |
| App.LowerOfUpper | App.tsx:256-257 | lower-casing after upper-casing is lower-casing |
| App.SearchSameLower | App.tsx:256-257 | two terms with the same lower-case form select the same jobs |
| JobModal.InitForm | components/JobModal.tsx:33-61 | a new form is blank on the default stages, index 0, in progress, no dates, internship; an edited job is copied, with a missing job type read as internship and a missing status as in-progress |
| JobModal.NewFormWellFormed | components/JobModal.tsx:48-58 | a new form on a non-empty default list starts on its first stage |
| JobModal.IsFixed | components/JobModal.tsx:239 | definition, no contract: `isFixed`, index 0, 1 or the last |
| JobModal.FixedNodes | components/JobModal.tsx:239 | on three or more stages the fixed nodes are exactly the first two and the last |
| JobModal.UpdateStepName | components/JobModal.tsx:69-73 | only the renamed stage changes, the list keeps its length and nothing else in the form changes |
| JobModal.InsertPosition | components/JobModal.tsx:78 | `max(0, len-1)`: before the last node, or the front of an empty list |
| JobModal.AddStep | components/JobModal.tsx:75-81 | 新节点 is inserted before the last node, the stages on either side keep their order, the last stays last, and nothing else changes |
| JobModal.RemoveAt | components/JobModal.tsx:85 | the element at the index is dropped and the rest keep their order; an index off the list changes nothing |
| JobModal.RemoveStep | components/JobModal.tsx:83-95 | a one-stage list is left alone; otherwise the stage is removed and the current index steps back exactly when it is at or after the removed stage and above 0 |
| JobModal.ResetSteps | components/JobModal.tsx:97-101 | the stages become the defaults and the index 0, nothing else changes |
| JobModal.SelectCurrent | components/JobModal.tsx:262-267 | the radio button makes that stage current and changes nothing else |
| JobModal.EditsPreserveWellFormed | components/JobModal.tsx:69-101 | rename, add, remove, reset and selecting a stage as current keep the current index on the list |
| JobModal.FixedNodesSurviveEdits | components/JobModal.tsx:75-95 | adding a stage, or removing a stage that is not fixed, keeps the first two and the last stage |
| JobModal.EditsKeepDateKeys | components/JobModal.tsx:69-101 | no stage-list edit touches the date map, which stays keyed by the old positions |
| Settings.TrimAll | components/SettingsModal.tsx:23 | `map(s => s.trim())`: same length, each line trimmed |
| Settings.InitialText | components/SettingsModal.tsx:13 | the text the box is filled with at the dialog's first render; saved unedited it gives a list of clean entries back |
| Settings.ParseJoined | components/SettingsModal.tsx:13-23 | the clean entries of a list written one per line parse back to the list |
| Settings.NonEmpty | components/SettingsModal.tsx:23 | `filter(s => s)`: no empty entry, every entry comes from the list, and each non-empty line is kept as many times as it occurs |
| Settings.NonEmptyConcat | components/SettingsModal.tsx:23 | the filter works line by line: it distributes over concatenation |
| Settings.NonEmptyIsSubsequence | components/SettingsModal.tsx:23 | the filter keeps its entries in their original order |
| Settings.ParseSteps | components/SettingsModal.tsx:22-26 | the saved list has no more entries than lines and none is empty |
| Settings.ParseStepsEntries | components/SettingsModal.tsx:23 | each saved entry is non-empty, trimmed and on one line; the list is an in-order subsequence of the trimmed lines and holds each non-empty trimmed line as many times as it occurs |
| Settings.ParseStable | components/SettingsModal.tsx:13-23 | a saved list, given to a freshly rendered dialog and saved unedited, stays the same |
| Settings.ResetText | components/SettingsModal.tsx:28-41 | the reset list equals the application's default stages, and saving the reset text gives exactly them |
| Settings.ReloadShowsBuiltInSteps | components/SettingsModal.tsx:13 | as written, after a reload a saved list of clean entries is not what the box shows: saving it unedited writes the built-in list |
| Settings.OpenedTextAsWritten | components/SettingsModal.tsx:13 | definition, no contract: the box's text when opened as the code is written, the built-in list joined whatever list is saved |
| Settings.Utf16Length | components/SettingsModal.tsx:45 | the length counts one or two UTF-16 units per character |
| Settings.CheckNewPassword | components/SettingsModal.tsx:44-53 | a password under six UTF-16 units is refused with the fixed message, any other is passed on to the provider unchanged |
| Stepper.ProgressOf | components/Stepper.tsx:88-89 | each stage is exactly one of done (before the current), current, or ahead |
| Stepper.IsAppliedName | components/Stepper.tsx:92-93 | definition, no contract: `isApplied`, the upper-cased name is 已投递 |
| Stepper.AppliedNameExact | components/Stepper.tsx:92-93 | upper-casing turns no name but 已投递 itself into 已投递 |
| Stepper.ShowDate | components/Stepper.tsx:92-110 | applied and offer stages show a date exactly when one is recorded; others exactly when after the first and done, or current and rejected |
| Stepper.DateText | components/Stepper.tsx:32-33 | a date appears exactly when shown and a non-zero timestamp is recorded, and it is that timestamp |
| Stepper.StepIcon | components/Stepper.tsx:40-48 | check for done or a current offer, clock, cross or spinner by the current status, circle for stages ahead |
| Stepper.StepColor | components/Stepper.tsx:50-66 | the filled style for done or a current offer, orange, red or emerald ring by the current status, grey for stages ahead |
| Stepper.LabelColorOf | components/Stepper.tsx:68-79 | emerald for done, bold emerald for a current offer, bold orange, red or emerald by the current status, grey for stages ahead |
| Stepper.IconMatchesColor | components/Stepper.tsx:40-66 | each icon goes with exactly one node style |
| Stepper.LabelMatchesColor | components/Stepper.tsx:50-79 | on the current stage the label colour follows the node style |
| Stepper.ConnectorOf | components/Stepper.tsx:150-156 | a connector follows every stage but the last, filled exactly when the stage is done |
| Stepper.Node | components/Stepper.tsx:88-156 | definition, no contract: one node's progress, date, icon, colours and connector, from the functions above |
| Stepper.Nodes | components/Stepper.tsx:87-160 | one node per stage, each classified by the rules above |
| Stepper.CurrentNode | components/Stepper.tsx:89 | a node is current exactly at the current index |
| Stepper.FirstStageDate | components/Stepper.tsx:105-110 | the first stage shows no date unless it is the applied or offer stage |
| Stepper.CompletedCount | components/Stepper.tsx:88 | the number of done nodes is the current index clamped to the list |
| Stepper.CompletedPrefix | components/Stepper.tsx:88 | a node list whose done nodes are exactly those before the current index has that index, clamped to the list, as its count of done nodes |
| Stepper.FilledCount | components/Stepper.tsx:150-156 | the number of filled connectors is the current index clamped to one less than the list |
| Stepper.FilledPrefix | components/Stepper.tsx:150-156 | on any prefix of the node list, the filled connectors are the done stages other than the last stage |
| Text.Upper | components/Stepper.tsx:92 | `toUpperCase`: same length, each ASCII letter upper-cased |
| Text.Lower | App.tsx:256-257 | `toLowerCase`: same length, each ASCII letter lower-cased |
| Text.UpperEqualsPlain | components/Stepper.tsx:92-93 | a name without ASCII letters is the upper-case form of itself only |
| Text.UpperIsOC | App.tsx:191 | the strings that upper-case to "OC" are its four spellings |
| Text.Contains | App.tsx:256-257 | `includes`: the empty term is always found, and a found term is no longer than the text |
| Text.ContainsMeansOccurs | App.tsx:256-257 | `includes` holds exactly when the term occurs at some position |
| Text.Trim | components/SettingsModal.tsx:23 | `trim`: a slice of the string with no white space at either end, everything cut off before and after it is white space, and empty exactly when the string is all white space |
| Text.TrimOfTrimmed | components/SettingsModal.tsx:23 | trimming a trimmed string changes nothing |
| Text.TrimKeepsNoNewline | components/SettingsModal.tsx:23 | trimming a newline-free line keeps it newline-free |
| Text.SplitLines | components/SettingsModal.tsx:23 | `split('\n')`: at least one piece, none holding a newline |
| Text.JoinLines | components/SettingsModal.tsx:13 | definition, no contract: `join('\n')`, used at the first render and by reset (line 39); its meaning is fixed by SplitJoin and JoinSplit |
| Text.SplitJoin | components/SettingsModal.tsx:13-23 | splitting a joined non-empty list of newline-free lines gives it back |
| Text.JoinSplit | components/SettingsModal.tsx:13-23 | joining the pieces of a split gives the string back |

## Left out

- Supabase calls are not modelled: session and auth events, sign-in, sign-up, password reset and update, and the table reads, inserts, updates and deletes. The store's answer to a query is a parameter of `JobFetch.FetchJobs`. The writes are returned as values (`StepWrite`, `StatusWrite`, `SaveAction`).
- The query's `created_at` ordering is left out: the store sorts, and the rows arrive in its order.
- The re-fetch that `handleUpdateStep` and `handleSaveJob` end with (App.tsx:215, 174) is not composed into `StageEngine.HandleUpdateStep` or `App.SaveJob`. That re-fetch is `JobFetch.FetchJobs` on the store's new rows, and its owner sweep can change a status the click has just written (`JobFetch.RefetchUndoesScreeningReclick`).
- `Promise.all`, async ordering and React state batching are not modelled.
- Clocks are a parameter: `Date.now()` and the ISO update times become one `now` per handler. The code reads the clock more than once per handler; the model treats those reads as equal.
- Parsing stored ISO timestamps is left out: rows arrive with epoch-millisecond integers. An unparsable date (NaN) is not modelled.
- The `toLocaleDateString('zh-CN')` text is left out: `Stepper.DateText` yields the timestamp to be formatted.
- localStorage and `JSON.parse` of the configuration are left out, and so is `handleSaveSettings`, which only stores the parsed list.
- `window.confirm` is taken as confirmed: `JobModal.ResetSteps` and `Settings.ResetText` model the confirmed branch.
- `handleDeleteJob` is not modelled: it is one guarded store call.
- The welcome, login and job-card components are not modelled. They are mode switching around auth calls, plus badge styling.
- The scroll-into-view effect and the CSS class strings are left out. The classes are enumerations.
- The `tags` and `base` fields are not modelled: the mapper never fills them.
- `toUpperCase`/`toLowerCase` are modelled on ASCII letters only. The model therefore misses case folding of non-ASCII letters in the search over company and position (App.tsx:256-257) and in the offer and applied-name tests on user-editable stage names (App.tsx:191, components/Stepper.tsx:92-94).
- JobModal.UpdateStepName: requires an index on the list. The editor only passes row indices. An index off the list would make JavaScript grow the array with holes, which the model does not represent.
- App.StatsPartition: stated only for jobs whose stage index is below their stage count. A job with an index past its list is counted under no heading, so the sum can then fall short.
- The provider's answer to a password change is not modelled. The rest of `handleUpdatePassword` is I/O.

## Findings

| source | as written | input that shows it | evidently intended | confidence | as-written member | corrected member |
|---|---|---|---|---|---|---|
| components/SettingsModal.tsx:13 | the text box is filled once, at the dialog's first render; the dialog is rendered from the start (App.tsx:358) while the application still holds the built-in list (App.tsx:15), and the saved list is loaded afterwards (App.tsx:65-67) | save the list 笔试, OC; reload; open the dialog and save unedited: the built-in list is written over it | the box shows the list in use when the dialog is opened | medium, not executed | Settings.ReloadShowsBuiltInSteps | Settings.InitialText |
