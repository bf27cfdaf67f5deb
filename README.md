# NexusAI project manager — a verified model of its core

NexusAI is a browser application for planning software projects. A project
holds tasks with a status (Pending, In Progress, Completed, Blocked), a
priority, an optional assignee, deadline and reminder, and an audit history.
This Dafny project models the logic that decides what those records become:

- **Task board** (`project_details.dfy`, module `ProjectDetails`): moving a
  task between statuses, including the automatic start of the next Pending
  task after an on-time completion; the progress percentage and the
  confirmation step the first time a project reaches 100 %; adding, editing
  and deleting tasks, where an edit writes one history entry per changed
  field, in a fixed field order; and the deadline badge (Overdue, Due Soon, or
  the date). The component's state is the class `ProjectView`.
- **Application state** (`app.dfy`, module `App`): the class `AppState` holding
  projects, roster, notifications, selection and view. Its handlers create,
  update and delete projects and members, log in and out, and keep the
  selection valid. The reminder check scans every task and adds a
  notification for each reminder that fell due in the last minute, unless a
  notification with the same title is already less than a minute old.
- **Accounts** (`auth_service.dfy`, module `AuthService`): registration and
  login against the key-value store, with emails compared case-insensitively,
  one generic error for every failed login, and a session copy without the
  password hash.
- **Dashboard** (`dashboard.dfy`): the summary statistics, the task-status
  distribution (a loop with four counters) and the per-project health rows.
- **Project creation** (`project_create.dfy`): the conversion of a plan
  returned by the language model into a project with defaults and checked
  dates, deadlines and assignees, and the appending of voice transcripts.
- **Team directory** (`team_management.dfy`): the member form, where skills are
  edited as comma-separated text and read back by split, trim and filter.
- **Search** (`search_bar.dfy`) and **account badge** (`account_menu.dfy`):
  case-insensitive search with at most three results of each kind, and the
  initials shown when a user has no avatar.

`types.dfy` holds the records of `types.ts`. `text.dfy` holds the few string
operations of JavaScript the code relies on (trim, split, join, includes,
case mapping), restricted to ASCII.

Times are abstracted. A date-only field (deadline, start and end date) is a
day number, a reminder or notification time is milliseconds, and a date text
is `Unset`, `Blank` (the empty string a form submits), `Parsed` or
`Unparsable`. The current time, fresh identifiers, the password hash and the
ISO formatting of a date are parameters.

## Model

| member | source | states |
|---|---|---|
| Types.DateText.Normalize | components/ProjectDetails.tsx:214 | `normalize`: a falsy date text (missing or "") becomes missing; any other is kept |
| Types.DateText.Raw | components/ProjectDetails.tsx:262-281 | the stored string of a date field, missing only when the field is; a parsed field is compared by its text, not its parsed value |
| Types.AvatarFor | services/authService.ts:32 | the default avatar URL ends with the name it is seeded with |
| Types.FindMember | components/ProjectDetails.tsx:392-394 | `find` by id: a found member is the first on the roster with the id; none is found exactly when no member has the id |
| Text.TrimStart | components/ProjectCreate.tsx:92 | the leading white space removed: a suffix of the text starting with a non-white character, or empty |
| Text.TrimEnd | components/ProjectCreate.tsx:92 | the trailing white space removed: a prefix of the text ending with a non-white character, or empty |
| Text.Trim | components/ProjectCreate.tsx:92 | `trim` gives the infix of the text that neither starts nor ends with white space and outside which every character is white space |
| Text.BlankIffAllWhite | components/ProjectCreate.tsx:92 | a text trims to "" exactly when all its characters are white space |
| Text.TrimOfTrimmed | components/TeamManagement.tsx:46 | trimming a trimmed text changes nothing |
| Text.TrimAfterSpace | components/TeamManagement.tsx:46 | trimming a trimmed text led by one space gives the text |
| Text.Lower | components/SearchBar.tsx:27 | `toLowerCase` maps each character, keeping the length |
| Text.Upper | components/AccountMenu.tsx:27 | `toUpperCase` maps each character and leaves no lower-case letter |
| Text.Split | components/TeamManagement.tsx:46 | `split` gives at least one piece, no piece holds the separator, and a text without it is one piece |
| Text.SplitAtFirst | components/TeamManagement.tsx:46 | a text cut at its first separator splits into the part before it followed by the pieces after it |
| Text.DropEmpty | components/TeamManagement.tsx:46 | `filter(s => s)` keeps exactly the non-empty strings |
| Text.DropEmptyAppend | components/TeamManagement.tsx:46 | the filter keeps the order and the repeats: filtering two lists in turn is filtering their concatenation |
| Text.DropEmptyOfNonEmpty | components/TeamManagement.tsx:46 | filtering a list without an empty string changes nothing |
| ProjectDetails.CompletedCount | components/ProjectDetails.tsx:125 | the Completed count never exceeds the number of tasks |
| ProjectDetails.AllCompletedIffCountFull | components/ProjectDetails.tsx:125 | the count equals the length exactly when every task is Completed |
| ProjectDetails.DivAtLeast | components/ProjectDetails.tsx:126 | a quotient reaches k exactly when the dividend reaches k times the divisor |
| ProjectDetails.RoundedPercent | components/ProjectDetails.tsx:126 | `Math.round(c / t * 100)` in exact arithmetic lies in 0..100 and is 100 exactly when 200c >= 199t |
| ProjectDetails.Progress | components/ProjectDetails.tsx:124-126 | progress lies in 0..100, is 0 for no tasks, and is the rounded percentage of Completed tasks otherwise |
| ProjectDetails.ProgressAsWritten | components/ProjectDetails.tsx:126 | for a non-empty list the code's division agrees with `Progress` |
| ProjectDetails.EmptyListProgressIsNaN | components/ProjectDetails.tsx:124-131 | as written, an empty list gives NaN, which is neither below 100 nor equal to it; the corrected progress is 0 |
| ProjectDetails.ProgressFullIff | components/ProjectDetails.tsx:126 | progress is 100 exactly when there are tasks and 200·completed >= 199·total |
| ProjectDetails.AllCompletedGivesFullProgress | components/ProjectDetails.tsx:124-126 | a non-empty all-Completed list has progress 100 |
| ProjectDetails.FullProgressMeansAllCompleted | components/ProjectDetails.tsx:124-126 | below 200 tasks, progress 100 means every task is Completed |
| ProjectDetails.RoundingCompletesEarly | components/ProjectDetails.tsx:126 | from 200 tasks on, one open task still rounds to 100 |
| ProjectDetails.FindTask | components/ProjectDetails.tsx:68-69 | `find` by id returns the first task with the id, or none exactly when no task has it |
| ProjectDetails.FirstPending | components/ProjectDetails.tsx:101 | `find` of the first Pending task: it is Pending, none before it is, and none is found exactly when no task is Pending |
| ProjectDetails.SetStatus | components/ProjectDetails.tsx:79-81 | every task with the id gets the status and the entry on top of its history; the others are unchanged |
| ProjectDetails.Moved | components/ProjectDetails.tsx:67-122 | the move fails exactly for an unknown id, and keeps the length and every task's id |
| ProjectDetails.MoveUpdatesTarget | components/ProjectDetails.tsx:71-81 | the moved task takes the new status and one "You" STATUS entry naming the old and new status |
| ProjectDetails.NoAutoAdvanceUnlessOnTime | components/ProjectDetails.tsx:84-98 | a late completion or any other move leaves every other task as it was |
| ProjectDetails.NoPendingNoAutoAdvance | components/ProjectDetails.tsx:101-103 | with no other Pending task, an on-time completion changes no other task |
| ProjectDetails.AutoAdvanceStartsFirstPending | components/ProjectDetails.tsx:99-118 | an on-time completion starts exactly the first other Pending task, with one "System" entry, and changes nothing else |
| ProjectDetails.FirstPendingOther | components/ProjectDetails.tsx:101 | after the moved task is Completed, the first Pending task is the first Pending one among the others |
| ProjectDetails.IsLate | components/ProjectDetails.tsx:86-98 | a completion is late exactly when the deadline parses and its day has ended; a missing, empty or unparsable deadline is never late (`NoAutoAdvanceUnlessOnTime`, `OverdueIffLate`) |
| ProjectDetails.StatusEntry | components/ProjectDetails.tsx:71-77 | the user's STATUS entry naming the old and new status, by "You" (`MoveUpdatesTarget`) |
| ProjectDetails.AutoStartEntry | components/ProjectDetails.tsx:105-111 | the "System" STATUS entry of an automatic start (`AutoAdvanceStartsFirstPending`) |
| ProjectDetails.Gate | components/ProjectDetails.tsx:124-137 | the project gets the tasks and their progress, and is held for confirmation exactly when progress reaches 100 from below |
| ProjectDetails.GateStagesFirstCompletion | components/ProjectDetails.tsx:130-133 | completing every task of a project below 100 asks for confirmation |
| ProjectDetails.NewTask | components/ProjectDetails.tsx:176-196 | a new task is Pending with one CREATED entry by "You"; empty assignee, deadline and reminder become missing |
| ProjectDetails.FieldIndex | components/ProjectDetails.tsx:216-292 | each edited field has its place in the order the edit checks them |
| ProjectDetails.Differs | components/ProjectDetails.tsx:216-292 | the six comparisons of the edit: dates after normalising, the assignee as it is (`ChangedFieldsMembers`, `UnassignedToEmptyLogsAssigneeEntry`) |
| ProjectDetails.ChangedFields | components/ProjectDetails.tsx:205-292 | the changed fields of an edit: exactly the differing ones, once each, in checking order (`ChangedFieldsMembers`, `ChangedFieldsOrdered`) |
| ProjectDetails.ChangedUpTo | components/ProjectDetails.tsx:216-292 | the first k fields' changes are at most k |
| ProjectDetails.ChangedUpToMembers | components/ProjectDetails.tsx:216-292 | a field is among the first k changes exactly when it is before k and differs |
| ProjectDetails.ChangedUpToOrdered | components/ProjectDetails.tsx:216-292 | the changes come in strictly increasing field order |
| ProjectDetails.AppendInOrder | components/ProjectDetails.tsx:216-292 | a field after every listed one extends the order |
| ProjectDetails.ChangedFieldsMembers | components/ProjectDetails.tsx:216-292 | the edit lists exactly the fields that differ |
| ProjectDetails.ChangedFieldsOrdered | components/ProjectDetails.tsx:216-292 | no field is listed twice and the fields come in checking order |
| ProjectDetails.NothingChangedUpTo | components/ProjectDetails.tsx:216-292 | without a differing field no change is listed |
| ProjectDetails.UnchangedEditWritesNothing | components/ProjectDetails.tsx:216-292 | saving an edit that changes nothing (date texts compared after normalising) writes no entry |
| ProjectDetails.MemberName | components/ProjectDetails.tsx:251-252 | the name shown is a roster member's with the id, or "Unassigned" when there is none |
| ProjectDetails.EntryFor | components/ProjectDetails.tsx:217-290 | each entry carries its field's change type, the edit's timestamp and the actor "You" |
| ProjectDetails.Entries | components/ProjectDetails.tsx:211-290 | one entry per changed field, in the same order |
| ProjectDetails.PushIfChanged | components/ProjectDetails.tsx:217-290 | one `changes.push` step extends the entries of the first k fields to k+1 |
| ProjectDetails.DiffHistory | components/ProjectDetails.tsx:211-290 | the entries pushed are the entries of the changed fields, in checking order |
| ProjectDetails.OnlyField | components/ProjectDetails.tsx:216-292 | an ordered change list whose only member is one field is that field alone |
| ProjectDetails.OnlyAssigneeDiffers | components/ProjectDetails.tsx:249-260 | an edit that changes only the assignee lists only the assignee field |
| ProjectDetails.UnassignedToEmptyLogsAssigneeEntry | components/ProjectDetails.tsx:249-260 | a missing assignee edited to "" logs "Assignee changed from Unassigned to Unassigned", because the assignee is not normalised |
| ProjectDetails.EditedTask | components/ProjectDetails.tsx:294-299 | the stored task is the edited one with normalised dates and the new entries on top of its history |
| ProjectDetails.ReplaceTask | components/ProjectDetails.tsx:301 | every task with the id is replaced and the others kept |
| ProjectDetails.RemoveTask | components/ProjectDetails.tsx:354 | the tasks kept are exactly those without the id |
| ProjectDetails.RemoveTaskAppend | components/ProjectDetails.tsx:354 | the others keep their order: removing the id from two lists in turn is removing it from their concatenation |
| ProjectDetails.RemoveTaskLength | components/ProjectDetails.tsx:352-358 | deleting an unknown id changes nothing; deleting a known one shortens the list |
| ProjectDetails.DeadlineStatusOf | components/ProjectDetails.tsx:371-390 | no badge exactly for a missing deadline or a Completed task |
| ProjectDetails.DeadlineClassification | components/ProjectDetails.tsx:371-390 | Overdue before today, Due Soon from today to two days on, the date from three days on; an open task whose deadline does not parse shows "Invalid Date" |
| ProjectDetails.UrgencyGrowsWithTime | components/ProjectDetails.tsx:371-390 | as days pass a badge only becomes more urgent |
| ProjectDetails.OverdueIffLate | components/ProjectDetails.tsx:371-390 | an open task is Overdue exactly when completing it now counts as late |
| ProjectDetails.ProjectView.constructor | components/ProjectDetails.tsx:25-41 | the view starts on the shown project with nothing staged or awaiting deletion |
| ProjectDetails.ProjectView.UpdateProjectTasks | components/ProjectDetails.tsx:124-137 | commits the updated project, or stages it and opens the confirmation on a first completion |
| ProjectDetails.ProjectView.ConfirmCompletion | components/ProjectDetails.tsx:139-145 | commits exactly the staged project and clears the staging |
| ProjectDetails.ProjectView.CancelCompletion | components/ProjectDetails.tsx:147-150 | drops the staged project and keeps the committed one |
| ProjectDetails.ProjectView.MoveTask | components/ProjectDetails.tsx:67-122 | an unknown id does nothing; otherwise the moved list goes through the gate |
| ProjectDetails.ProjectView.AddTask | components/ProjectDetails.tsx:173-203 | an empty title does nothing; otherwise the new task is appended and goes through the gate |
| ProjectDetails.ProjectView.UpdateTask | components/ProjectDetails.tsx:205-308 | an unknown task does nothing; otherwise the edited task with its diff entries replaces it and goes through the gate |
| ProjectDetails.ProjectView.RequestDeleteTask | components/ProjectDetails.tsx:348-350 | the task awaits confirmation |
| ProjectDetails.ProjectView.ConfirmDeleteTask | components/ProjectDetails.tsx:352-358 | the awaited task's id is removed through the gate, then nothing awaits |
| App.Offer | App.tsx:235-238 | the list gets the notification in front, unless one with its title is less than a minute old |
| App.Near | App.tsx:235 | two times less than a minute apart, in either direction (`OfferProperties`) |
| App.OfferProperties | App.tsx:235-238 | offering keeps the old list below, leaves a recent notification with the title, keeps every recent title, never makes two recent notifications share a title, and a second offer changes nothing |
| App.ReminderFor | App.tsx:226-233 | the notification is titled after the task, timed now, unread, of type reminder |
| App.ReminderDue | App.tsx:214-224 | an open task whose reminder parses and fell due in the last minute (`ScanProperties`, `NothingDueNothingAdded`) |
| App.ScanTask | App.tsx:217-238 | one task's check: its reminder offered when due (`ScanTaskProperties`) |
| App.ScanTasks | App.tsx:213-249 | the check over one project's tasks in order (`ScanTasksProperties`, `NothingDueInTasks`) |
| App.ScanProjects | App.tsx:211-251 | the check over every project in order (`ScanProperties`, `NothingDueNothingAdded`) |
| App.GrowsByTrans | App.tsx:213-249 | adding due reminders in two rounds adds due reminders |
| App.ScanTaskProperties | App.tsx:214-249 | one task's check adds only its due reminder and leaves it recent |
| App.ScanTasksProperties | App.tsx:214-249 | scanning a project's tasks adds only due reminders, covers every due task, keeps recent titles and never duplicates one |
| App.ScanProperties | App.tsx:211-251 | the full check keeps the old list below, adds only reminders of due tasks, covers every due task and never duplicates a recent title |
| App.NothingDueInTasks | App.tsx:214-249 | with no due task in a project nothing is added |
| App.NothingDueNothingAdded | App.tsx:211-251 | with no due task anywhere the notifications are unchanged |
| App.FindProject | App.tsx:265 | `find` by id: a found index carries the id and no earlier project does; none is found exactly when no project has it |
| App.ReplaceProject | App.tsx:303-305 | every project with the updated id is replaced and the others kept |
| App.RemoveProject | App.tsx:308 | the projects kept are exactly those without the id |
| App.RemoveProjectAppend | App.tsx:308 | the other projects keep their order: removal distributes over concatenation |
| App.ReplaceMember | App.tsx:320 | every member with the id is replaced and the others kept |
| App.RemoveMember | App.tsx:328 | the members kept are exactly those without the id |
| App.RemoveMemberAppend | App.tsx:328 | the other members keep their order: removal distributes over concatenation |
| App.SyncMember | App.tsx:321-324 | every project's team gets the updated member |
| App.DropMember | App.tsx:329-332 | every project's team loses the id |
| App.UpdatedMemberEverywhere | App.tsx:319-325 | after an update every team entry with the id is the new member, the rest and all tasks unchanged |
| App.ReplaceMemberIdempotent | App.tsx:320 | updating a member twice is updating it once |
| App.DeletedMemberStaysAssigned | App.tsx:327-333 | deleting a member leaves its tasks assigned to its id, which then shows as "Unassigned" |
| App.ActiveProjects | App.tsx:263 | the active list holds exactly the projects below 100 |
| App.CompletedProjects | App.tsx:264 | the completed list holds exactly the projects at 100 |
| App.ActiveProjectsAppend | App.tsx:263 | the active list keeps the projects' order: listing two parts in turn is listing their concatenation |
| App.CompletedProjectsAppend | App.tsx:264 | the completed list keeps the projects' order: listing two parts in turn is listing their concatenation |
| App.ActiveCompletedPartition | App.tsx:263-264 | with progress in 0..100 every project is in exactly one of the two lists |
| App.InitialTeam | App.tsx:14-43 | the seed roster has four members |
| App.AppState.constructor | App.tsx:114-158 | the saved lists are loaded, the seed roster when no team was saved; dashboard view, nobody signed in |
| App.AppState.CheckReminders | App.tsx:203-253 | signed out nothing changes; signed in the notifications become the scan of every task of every project, in order, and nothing else changes |
| App.AppState.ClearNotifications | App.tsx:376 | the notification list becomes empty |
| App.AppState.CreateProject | App.tsx:294-301 | the project with the current roster as its team goes in front; dashboard view |
| App.AppState.UpdateProject | App.tsx:303-305 | the projects become the replaced list |
| App.AppState.DeleteProject | App.tsx:307-313 | the project goes; its selection is dropped with the details view; a valid selection stays valid |
| App.AppState.AddMember | App.tsx:315-317 | the member is appended to the roster |
| App.AppState.UpdateMember | App.tsx:319-325 | the member is replaced on the roster and in every project's team |
| App.AppState.DeleteMember | App.tsx:327-333 | the id leaves the roster and every project's team |
| App.AppState.SafetyFallback | App.tsx:268-273 | afterwards the selection resolves; a valid one is untouched, an invalid one falls back to the dashboard |
| App.AppState.SelectProject | App.tsx:366 | the project is selected and its details shown |
| App.AppState.SelectSearchResult | App.tsx:335-342 | a project result opens its details; a member result opens team management |
| App.AppState.Navigate | App.tsx:363 | the view changes and the selection is cleared |
| App.AppState.Login | App.tsx:276-285 | the user becomes current and the roster is reloaded from a stored team |
| App.AppState.RestoreSession | App.tsx:160-166 | on mount, a stored session's user becomes current; without one nothing changes |
| App.AppState.Logout | App.tsx:287-291 | nobody is signed in and the dashboard is shown |
| AuthService.KeysDistinct | services/authService.ts:4-6 | the users, session and team keys differ |
| AuthService.SameEmail | services/authService.ts:23 | emails equal after lower-casing (`FindUser`, `AppendKeepsUnique`) |
| AuthService.FindUser | services/authService.ts:60-68 | the user found is the first whose email equals the given one up to case; none is found exactly when no user has it |
| AuthService.SessionCopy | services/authService.ts:78-79 | the session copy has no hash and differs from the user only there |
| AuthService.NewUser | services/authService.ts:27-34 | the new user has the given fields, the default avatar and the password's hash |
| AuthService.MemberFor | services/authService.ts:46-52 | the new member shares the user's id, name, role and avatar and has skill "General" |
| AuthService.AppendKeepsUnique | services/authService.ts:22-37 | adding a user whose email is new keeps emails unique up to case |
| AuthService.FindAppended | services/authService.ts:37-64 | after registering, a lookup of the new email finds the new user |
| AuthService.UnknownEmailRejected | services/authService.ts:64-68 | an email no user has is refused whatever the password |
| AuthService.Accepts | services/authService.ts:64-74 | login succeeds exactly for a found user with a non-empty hash equal to the password's (`AcceptsIff`, `UnknownEmailRejected`) |
| AuthService.AcceptsIff | services/authService.ts:64-74 | with unique emails, login succeeds exactly when the user with the email has a hash equal to the password's hash |
| AuthService.Auth.constructor | services/authService.ts:3-13 | the service starts on the given store and hash |
| AuthService.Auth.CurrentUser | services/authService.ts:90-93 | a current user exists exactly when the session key holds one |
| AuthService.Auth.Login | services/authService.ts:60-83 | succeeds exactly when the credentials are accepted; a failure says "Invalid email or password." and writes nothing; a success sets only the session key, to the returned copy without the hash; the users and team keys never change |
| AuthService.Auth.Register | services/authService.ts:18-58 | a taken email fails with nothing written; otherwise the users and team keys get one appended user and member, the session key the new user without the hash, and no other key changes; emails stay unique |
| AuthService.Auth.AppendUser | services/authService.ts:36-55 | the users key gets the user appended and the team key its member; no other key changes |
| AuthService.Auth.Logout | services/authService.ts:85-88 | only the session key is removed |
| Dashboard.CompletedCountAppend | components/Dashboard.tsx:18 | Completed counts add over concatenation |
| Dashboard.TotalTasks | components/Dashboard.tsx:17 | the task count summed over the projects, which is the length of all tasks together (`TotalsOverAllTasks`) |
| Dashboard.TotalBudget | components/Dashboard.tsx:20 | the budgets summed over the projects (`ComputeStats`) |
| Dashboard.TotalsOverAllTasks | components/Dashboard.tsx:17-18 | the task and completion totals are those of all tasks together |
| Dashboard.ComputeStats | components/Dashboard.tsx:14-23 | each statistic is its count or sum over the projects |
| Dashboard.OverallProgressIsProgressOfAllTasks | components/Dashboard.tsx:19 | overall progress is the progress of all tasks together, in 0..100, with completed at most total and active at most all |
| Dashboard.ActiveAtMostAll | components/Dashboard.tsx:16 | active projects are at most all projects |
| Dashboard.StatusCount | components/Dashboard.tsx:28-33 | the number of tasks with a status; the four add up to the length (`StatusCountsPartition`) |
| Dashboard.AllSlices | components/Dashboard.tsx:35-39 | the four slices in chart order before filtering (`DistributionInChartOrder`, `DistributionTotal`) |
| Dashboard.Distribution | components/Dashboard.tsx:25-41 | the positive slices in chart order, adding up to the task count (`DistributionInChartOrder`, `DistributionSlices`, `DistributionTotal`) |
| Dashboard.KeepPositive | components/Dashboard.tsx:40 | `filter(value > 0)` keeps exactly the positive slices |
| Dashboard.KeepPositiveAppend | components/Dashboard.tsx:40 | the filter keeps the order: the positive slices of two lists in turn are those of their concatenation |
| Dashboard.KeepPositiveInOrder | components/Dashboard.tsx:35-40 | dropping slices keeps the rest in chart order |
| Dashboard.TailInOrder | components/Dashboard.tsx:35-40 | the rest of a list in chart order is in chart order |
| Dashboard.HeadBelowKept | components/Dashboard.tsx:35-40 | the first slice ranks below every slice kept from the rest |
| Dashboard.PrependInOrder | components/Dashboard.tsx:35-40 | a slice ranked below a list in chart order extends it in chart order |
| Dashboard.StatusCountsPartition | components/Dashboard.tsx:28-33 | the four status counts of a task list add up to its length |
| Dashboard.CountsPartition | components/Dashboard.tsx:27-34 | the four status counts over all projects add up to the task total |
| Dashboard.KeepPositiveTotal | components/Dashboard.tsx:40 | dropping zero slices keeps the total |
| Dashboard.TotalAppend | components/Dashboard.tsx:35-40 | slice totals add over concatenation |
| Dashboard.TotalOfFour | components/Dashboard.tsx:35-39 | the total of the four slices is the sum of their values |
| Dashboard.DistributionTotal | components/Dashboard.tsx:25-41 | the distribution's values add up to the number of tasks |
| Dashboard.DistributionSlices | components/Dashboard.tsx:35-40 | every shown slice is positive, and a status is shown exactly when its count is positive |
| Dashboard.DistributionInChartOrder | components/Dashboard.tsx:35-40 | the chart names only the four statuses, each at most once, in the order Pending, In Progress, Completed, Blocked |
| Dashboard.TaskDistribution | components/Dashboard.tsx:25-41 | the counting loop produces the distribution |
| Dashboard.ShortName | components/Dashboard.tsx:44 | names over 10 characters become their first 10 plus "...", others are kept |
| Dashboard.ShortNameIdempotent | components/Dashboard.tsx:44 | shortening a shortened name changes nothing |
| Dashboard.HealthData | components/Dashboard.tsx:43-47 | one row per project with its short name, progress and task count |
| ProjectCreate.ShouldGenerateIff | components/ProjectCreate.tsx:92 | generation runs exactly when the input has a non-white character |
| ProjectCreate.ShouldGenerate | components/ProjectCreate.tsx:92 | the input has a non-white character (`ShouldGenerateIff`) |
| ProjectCreate.TextOr | components/ProjectCreate.tsx:136 | a missing or empty text falls back |
| ProjectCreate.NumberOr | components/ProjectCreate.tsx:139 | a missing or zero number falls back |
| ProjectCreate.CheckedDeadline | components/ProjectCreate.tsx:121-125 | an unparsable deadline is dropped, any other kept |
| ProjectCreate.CheckedAssignee | components/ProjectCreate.tsx:128-131 | an assignee not on the team is dropped, one on it kept |
| ProjectCreate.ConvertTask | components/ProjectCreate.tsx:119-150 | a plan task becomes a Pending task with defaults and one "AI Agent" CREATED entry |
| ProjectCreate.Dates | components/ProjectCreate.tsx:100-108 | start defaults to today, a missing end is start plus 30 days, and an unparsable start without an end fails |
| ProjectCreate.ConvertPlan | components/ProjectCreate.tsx:99-154 | the project takes the plan's fields with defaults, the team, no risks, progress 0 and one converted task per plan task |
| ProjectCreate.GeneratedProjectConsistent | components/ProjectCreate.tsx:111-154 | a generated project's progress 0 matches its tasks, it counts as active, and its tasks are Pending with valid deadlines and assignees |
| ProjectCreate.NoneCompleted | components/ProjectCreate.tsx:137-153 | all-Pending tasks have progress 0 |
| ProjectCreate.AppendTranscript | components/ProjectCreate.tsx:73-76 | the transcript is appended after a blank line exactly when the input has visible text |
| ProjectCreate.TranscriptSeparatedIff | components/ProjectCreate.tsx:74 | the separator is added exactly when the input has a non-white character |
| ProjectCreate.CreateForm.constructor | components/ProjectCreate.tsx:17-20 | the form starts with the saved draft |
| ProjectCreate.CreateForm.OnTranscript | components/ProjectCreate.tsx:73-76 | the input becomes the appended transcript |
| ProjectCreate.CreateForm.Generate | components/ProjectCreate.tsx:91-160 | nothing for blank input; otherwise the converted project and a cleared input, or nothing when conversion fails |
| TeamManagement.TrimAll | components/TeamManagement.tsx:46 | `map(trim)` trims each piece in place |
| TeamManagement.JoinSkills | components/TeamManagement.tsx:36 | the skills joined by ", ", undone by `ParseSkills` (`SkillsRoundTrip`) |
| TeamManagement.ParseSkills | components/TeamManagement.tsx:46 | the skills are exactly the non-empty trims of the comma-separated pieces, each non-empty, trimmed and without a comma; their order follows from `TrimAll` and `Text.DropEmptyAppend` |
| TeamManagement.TrimmedPieces | components/TeamManagement.tsx:46 | the trimmed pieces are exactly the trims of the pieces, trimmed and without a comma |
| TeamManagement.TrimmedPiece | components/TeamManagement.tsx:46 | a piece without a comma trims to a trimmed text without a comma |
| TeamManagement.TrimOfPieceKept | components/TeamManagement.tsx:46 | the trim of every piece is among the trimmed pieces |
| TeamManagement.ParsedSkillsWellFormed | components/TeamManagement.tsx:46 | every parsed skill, by position, is well formed |
| TeamManagement.Spaced | components/TeamManagement.tsx:36 | each joined skill after the first is led by its space |
| TeamManagement.SplitJoined | components/TeamManagement.tsx:36-46 | splitting ", "-joined skills gives the first skill and the others led by a space |
| TeamManagement.TrimPieces | components/TeamManagement.tsx:46 | trimming those pieces gives the skills back |
| TeamManagement.TrimSplitJoined | components/TeamManagement.tsx:36-46 | split and trim undo the join |
| TeamManagement.SkillsRoundTrip | components/TeamManagement.tsx:36-46 | parsing the joined skills gives them back when each is non-empty, trimmed and comma-free |
| TeamManagement.ParsedSkillsStable | components/TeamManagement.tsx:36-46 | parsed skills survive another edit unchanged |
| TeamManagement.FormFor | components/TeamManagement.tsx:32-41 | the edit form shows the member's name, role, avatar and joined skills |
| TeamManagement.Submission | components/TeamManagement.tsx:43-63 | nothing without a name and a role; otherwise the member with parsed skills, the typed or default avatar and the edited or fresh id, updated when an id is edited and added otherwise |
| TeamManagement.EditUnchangedUpdatesSameMember | components/TeamManagement.tsx:32-63 | opening a member and saving at once updates that same member unchanged |
| TeamManagement.SubmittedMemberWellFormed | components/TeamManagement.tsx:46-47 | a submitted member has a non-empty avatar and well-formed skills |
| TeamManagement.TeamView.constructor | components/TeamManagement.tsx:20-23 | the modal is closed, nothing edited, the form empty and nothing awaiting deletion |
| TeamManagement.TeamView.OpenAddModal | components/TeamManagement.tsx:26-30 | the modal opens on the empty form with no id edited |
| TeamManagement.TeamView.OpenEditModal | components/TeamManagement.tsx:32-41 | the modal opens on the member's form with its id edited |
| TeamManagement.TeamView.Submit | components/TeamManagement.tsx:43-63 | the action is the submission; the modal closes unless nothing was submitted |
| TeamManagement.TeamView.RequestDelete | components/TeamManagement.tsx:65-68 | the member awaits confirmation |
| TeamManagement.TeamView.ConfirmDelete | components/TeamManagement.tsx:70-80 | the awaited member's id is deleted, then nothing awaits |
| SearchBar.MatchingProjects | components/SearchBar.tsx:26-28 | the filter keeps exactly the projects whose name or description contains the query, ignoring case |
| SearchBar.ProjectMatches | components/SearchBar.tsx:27-28 | the name or description contains the query, ignoring case (`MatchingProjects`, `NameFindsProject`) |
| SearchBar.MemberMatches | components/SearchBar.tsx:32-33 | the name or role contains the query, ignoring case (`MatchingMembers`) |
| SearchBar.MatchingMembers | components/SearchBar.tsx:31-33 | the filter keeps exactly the members whose name or role contains the query, ignoring case |
| SearchBar.MatchingProjectsAppend | components/SearchBar.tsx:26-28 | matching projects keep their input order: the matches of two lists in turn are those of their concatenation |
| SearchBar.MatchingMembersAppend | components/SearchBar.tsx:31-33 | matching members keep their input order: the matches of two rosters in turn are those of their concatenation |
| SearchBar.FirstShown | components/SearchBar.tsx:29 | `slice(0, 3)` keeps the first three, or all when fewer |
| SearchBar.FilteredProjects | components/SearchBar.tsx:26-29 | nothing for an empty query; else the first min(3, matches) matching projects, in order |
| SearchBar.FilteredTeam | components/SearchBar.tsx:31-34 | nothing for an empty query; else the first min(3, matches) matching members, in order |
| SearchBar.HasResultsIff | components/SearchBar.tsx:36 | there are results exactly when the query is not empty and some project or member matches |
| SearchBar.HasResults | components/SearchBar.tsx:36 | some project or member is listed (`HasResultsIff`) |
| SearchBar.FewMatchesAllShown | components/SearchBar.tsx:26-29 | with at most three matches every matching project is shown |
| SearchBar.NameFindsProject | components/SearchBar.tsx:26-27 | a project is found by its name typed in upper or lower case |
| SearchBar.LowerOfUpper | components/SearchBar.tsx:27 | lower-casing forgets upper-casing |
| SearchBar.LowerOfLower | components/SearchBar.tsx:27 | lower-casing twice is lower-casing once |
| SearchBar.SearchBox.constructor | components/SearchBar.tsx:11-12 | the box starts empty and closed |
| SearchBar.SearchBox.Type | components/SearchBar.tsx:51-54 | the query becomes the text and the list opens |
| SearchBar.SearchBox.Focus | components/SearchBar.tsx:55 | the list opens |
| SearchBar.SearchBox.ClickOutside | components/SearchBar.tsx:16-24 | the list closes |
| SearchBar.SearchBox.SelectProject | components/SearchBar.tsx:75-79 | reports a shown matching project's id, closes the list and clears the query |
| SearchBar.SearchBox.SelectMember | components/SearchBar.tsx:98-102 | reports a shown matching member's id, closes the list and clears the query |
| AccountMenu.FirstChars | components/AccountMenu.tsx:27 | one first character per non-empty word, in order |
| AccountMenu.Prefix | components/AccountMenu.tsx:27 | `substring(0, n)` is the first n characters, or all when fewer |
| AccountMenu.Words | components/AccountMenu.tsx:27 | the non-empty pieces between spaces (`ExampleWords`, `OnlySpacesNoWords`, `SomeWord`) |
| AccountMenu.Initials | components/AccountMenu.tsx:26-28 | at most two characters: the upper-cased first characters of the first two words |
| AccountMenu.InitialsEmptyIff | components/AccountMenu.tsx:27 | the initials are empty exactly when the name is only spaces |
| AccountMenu.OnlySpacesNoWords | components/AccountMenu.tsx:27 | a name of spaces has no word |
| AccountMenu.SomeWord | components/AccountMenu.tsx:27 | a name with a non-space character has a word |
| AccountMenu.NonEmptyPiece | components/AccountMenu.tsx:27 | the piece around a non-space character is not empty |
| AccountMenu.SplitAtFirstSpace | components/AccountMenu.tsx:27 | a name splits at its first space |
| AccountMenu.FirstSpace | components/AccountMenu.tsx:27 | the index of the first space |
| AccountMenu.ExampleWords | components/AccountMenu.tsx:27 | "Alice Chen" has the words "Alice" and "Chen" |
| AccountMenu.InitialsExample | components/AccountMenu.tsx:27 | "Alice Chen" gives "AC" |
| AccountMenu.BadgeFor | components/AccountMenu.tsx:40-44 | the avatar is shown exactly when it is present and not empty, the initials otherwise |

## Left out

- Calls to the language model (plan parsing, risk analysis, reports, transcription) are not modelled: the plan they return is an input (`ProjectCreate.RawPlan`).
- Browser storage, JSON encoding and drafts are not modelled: a stored value is the value it decodes to, and a failing parse is a missing value. Draft saving and removal are left out.
- The 30-second timer, the desktop Notification API and the permission request are left out; `App.AppState.CheckReminders` is one run of the check.
- Date parsing, time zones and locale formatting are not modelled: dates are day numbers or milliseconds, and `today`, `now` and the ISO formatting of a date are parameters. Labels such as the reminder's "Reminder set for ..." use a fixed rendering of the stored text.
- The identifiers of history entries and notifications (random UUIDs no logic reads) are dropped. Task, project, member and user ids come from parameters.
- Estimated hours and budgets are integers: a NaN or fractional number from the model is not represented.
- Text case mapping, trimming and splitting cover ASCII only, not Unicode.
- AuthService.Auth: the hash is any deterministic function; the source's SHA-256 hex digest is never empty, so the model's failure branch for an empty hash does not occur there.
- The password-length check of the sign-in screen, the theme, sidebar and mobile-menu flags, and `priorityColor` are presentation and are left out.
- App.AppState.constructor: the saved projects are a parameter; the INITIAL_PROJECTS fallback used when nothing is saved (demo data) is left out.
- ProjectDetails.RoundedPercent: computes `Math.round(c / t * 100)` exactly, as `(200c + t) div 2t`. The source evaluates `c / t * 100` in double precision, which can land just below a half-way point; 23 of 40, for instance, gives 57.49999999999999 and shows 57 where the model gives 58. `ProjectDetails.Progress` and `Dashboard.ComputeStats` inherit this. The bound 0..100 holds either way.
- App.AppState.Logout: only clears the application state; removing the session key is `AuthService.Auth.Logout`.
- ProjectDetails.DeadlineStatusOf: the date label is the day number, not its locale rendering.
- The rejection of a failed operation through an exception is modelled as a `Failure` result; alerts and console messages are left out.

## Findings

| source | as written | input that shows it | evidently intended | confidence | as-written member | corrected member |
|---|---|---|---|---|---|---|
| components/ProjectDetails.tsx:126 | `Math.round((completed / updatedTasks.length) * 100)` divides by zero when the last task is deleted, storing NaN as the project's progress, which is neither below 100 nor 100 | a project whose only task is deleted | progress 0 for a project without tasks | not executed | ProjectDetails.EmptyListProgressIsNaN | ProjectDetails.Progress |

Kept as written, and stated as lemmas rather than corrected:

- A task with no assignee, edited so that the assignee select yields "", logs "Assignee changed from Unassigned to Unassigned". The assignee is compared without the normalisation the dates get (`ProjectDetails.UnassignedToEmptyLogsAssigneeEntry`).
- Deleting a member removes it from the roster and the project teams but not from task assignments, although the confirmation text at components/TeamManagement.tsx:149 says otherwise. The tasks keep the id and show "Unassigned" (`App.DeletedMemberStaysAssigned`).
- From 200 tasks on, progress rounds to 100 with one task still open, which triggers the completion confirmation (`ProjectDetails.RoundingCompletesEarly`).
