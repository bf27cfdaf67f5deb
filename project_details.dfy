/**
 * The task lifecycle engine of the project-details view
 * (components/ProjectDetails.tsx): status moves with their audit entries, the
 * automatic start of the next pending task, progress recomputation, the
 * completion gate, task creation, editing and deletion, and the deadline badge.
 *
 * The pure rules are functions over task lists; the view itself is the class
 * `ProjectView`, whose fields are the project it shows and the staging state of
 * the completion gate.
 */
module ProjectDetails {
  import opened Types

  // ---------------------------------------------------------------------------
  // Progress
  // ---------------------------------------------------------------------------

  /** Number of tasks whose status is Completed. */
  function CompletedCount(tasks: seq<Task>): (n: nat)
    ensures n <= |tasks|
  {
    if |tasks| == 0 then 0
    else (if tasks[0].status == Completed then 1 else 0) + CompletedCount(tasks[1..])
  }

  /** Every task is Completed exactly when the count reaches the length. */
  lemma {:induction false} AllCompletedIffCountFull(tasks: seq<Task>)
    ensures CompletedCount(tasks) == |tasks| <==> forall i :: 0 <= i < |tasks| ==> tasks[i].status == Completed
  {
    if |tasks| > 0 {
      AllCompletedIffCountFull(tasks[1..]);
      assert forall i :: 1 <= i < |tasks| ==> tasks[i] == tasks[1..][i - 1];
    }
  }

  /** For a positive divisor, the quotient reaches `k` exactly when the dividend reaches `k * b`. */
  lemma DivAtLeast(a: int, b: int, k: int)
    requires b > 0
    ensures a / b >= k <==> a >= k * b
  {
    var q, r := a / b, a % b;
    assert a == q * b + r && 0 <= r < b;
    if q >= k {
      assert (q - k) * b >= 0;
      assert q * b - k * b == (q - k) * b;
    } else {
      assert (k - 1 - q) * b >= 0;
      assert (k - 1) * b - q * b == (k - 1 - q) * b;
      assert k * b == (k - 1) * b + b;
    }
  }

  /**
   * `Math.round(100 * c / t)` for 0 <= c <= t, 0 < t, computed exactly:
   * round-half-up of a non-negative rational is floor(x + 1/2). It is 100
   * exactly when 200c >= 199t.
   */
  function RoundedPercent(c: nat, t: nat): (p: int)
    requires c <= t && t > 0
    ensures 0 <= p <= 100
    ensures p == 100 <==> 200 * c >= 199 * t
  {
    var p := (200 * c + t) / (2 * t);
    DivAtLeast(200 * c + t, 2 * t, 0);
    DivAtLeast(200 * c + t, 2 * t, 100);
    DivAtLeast(200 * c + t, 2 * t, 101);
    p
  }

  /**
   * Project progress over a task list: the rounded percentage of completed
   * tasks, and 0 for an empty list. This is the corrected rule the rest of the
   * model uses; `ProgressAsWritten` is what the source computes.
   */
  function Progress(tasks: seq<Task>): (p: int)
    ensures 0 <= p <= 100
    ensures tasks == [] ==> p == 0
    ensures tasks != [] ==> p == RoundedPercent(CompletedCount(tasks), |tasks|)
  {
    if |tasks| == 0 then 0 else RoundedPercent(CompletedCount(tasks), |tasks|)
  }

  /** A JavaScript number as far as progress needs one: finite, or NaN. */
  datatype Num = Finite(n: int) | NaN
  {
    /** `x < k`; every comparison with NaN is false. */
    predicate Below(k: int) { Finite? && n < k }
    /** `x === k`. */
    predicate Is(k: int) { Finite? && n == k }
  }

  /** `Math.round((completed / length) * 100)` exactly as the source writes it: 0/0 is NaN. */
  function ProgressAsWritten(tasks: seq<Task>): (p: Num)
    ensures tasks != [] ==> p == Finite(Progress(tasks))
  {
    if |tasks| == 0 then NaN else Finite(RoundedPercent(CompletedCount(tasks), |tasks|))
  }

  /**
   * The source's progress on an empty task list is NaN, so the project it
   * commits is neither active (`progress < 100`) nor completed
   * (`progress === 100`); the corrected progress puts it among the active ones.
   */
  lemma EmptyListProgressIsNaN(current: Project)
    ensures ProgressAsWritten([]) == NaN
    ensures !ProgressAsWritten([]).Below(100) && !ProgressAsWritten([]).Is(100)
    ensures Progress([]) == 0 && Progress([]) < 100
  {
  }

  /** Progress is 100 exactly when at least 199.5 of every 200 tasks are completed. */
  lemma ProgressFullIff(tasks: seq<Task>)
    ensures Progress(tasks) == 100 <==> tasks != [] && 200 * CompletedCount(tasks) >= 199 * |tasks|
  {
  }

  /** Completing every task of a non-empty list gives progress 100. */
  lemma AllCompletedGivesFullProgress(tasks: seq<Task>)
    requires tasks != []
    requires forall i :: 0 <= i < |tasks| ==> tasks[i].status == Completed
    ensures Progress(tasks) == 100
  {
    AllCompletedIffCountFull(tasks);
    ProgressFullIff(tasks);
  }

  /** Below 200 tasks, progress 100 means every task is completed. */
  lemma FullProgressMeansAllCompleted(tasks: seq<Task>)
    requires |tasks| < 200 && Progress(tasks) == 100
    ensures forall i :: 0 <= i < |tasks| ==> tasks[i].status == Completed
  {
    ProgressFullIff(tasks);
    AllCompletedIffCountFull(tasks);
  }

  /**
   * From 200 tasks on, rounding reaches 100 with one task still open
   * (`Math.round(99.5) === 100`), so the completion gate can fire early.
   */
  lemma RoundingCompletesEarly(tasks: seq<Task>)
    requires |tasks| >= 200 && CompletedCount(tasks) == |tasks| - 1
    ensures Progress(tasks) == 100
    ensures exists i :: 0 <= i < |tasks| && tasks[i].status != Completed
  {
    ProgressFullIff(tasks);
    AllCompletedIffCountFull(tasks);
  }

  // ---------------------------------------------------------------------------
  // Looking tasks up
  // ---------------------------------------------------------------------------

  /** Index of the first task with the given id (`tasks.find(t => t.id === id)`). */
  function FindTask(tasks: seq<Task>, id: string): (r: Option<nat>)
    ensures r.Some? ==> r.value < |tasks| && tasks[r.value].id == id
    ensures r.Some? ==> forall j :: 0 <= j < r.value ==> tasks[j].id != id
    ensures r.None? <==> forall j :: 0 <= j < |tasks| ==> tasks[j].id != id
  {
    if |tasks| == 0 then None
    else if tasks[0].id == id then Some(0)
    else match FindTask(tasks[1..], id)
      case None => None
      case Some(k) => Some(k + 1)
  }

  /** Index of the first Pending task in list order. */
  function FirstPending(tasks: seq<Task>): (r: Option<nat>)
    ensures r.Some? ==> r.value < |tasks| && tasks[r.value].status == Pending
    ensures r.Some? ==> forall j :: 0 <= j < r.value ==> tasks[j].status != Pending
    ensures r.None? <==> forall j :: 0 <= j < |tasks| ==> tasks[j].status != Pending
  {
    if |tasks| == 0 then None
    else if tasks[0].status == Pending then Some(0)
    else match FirstPending(tasks[1..])
      case None => None
      case Some(k) => Some(k + 1)
  }

  /** Task identifiers come from `crypto.randomUUID`, so they are pairwise distinct. */
  ghost predicate UniqueIds(tasks: seq<Task>)
  {
    forall i, j :: 0 <= i < j < |tasks| ==> tasks[i].id != tasks[j].id
  }

  // ---------------------------------------------------------------------------
  // Status moves and auto-advance
  // ---------------------------------------------------------------------------

  /** The audit entry a user's status move writes. */
  function StatusEntry(from: TaskStatus, to: TaskStatus, stamp: int): HistoryEntry
  {
    HistoryEntry(StatusTag, "Status changed from " + StatusName(from) + " to " + StatusName(to), stamp, Some("You"))
  }

  /** The audit entry written on the task the system starts automatically. */
  function AutoStartEntry(stamp: int): HistoryEntry
  {
    HistoryEntry(StatusTag, "Auto-started: Previous task completed on time", stamp, Some("System"))
  }

  /**
   * Whether completing a task with this deadline now is late: the deadline day
   * has ended (now is past 23:59:59.999 of it). A missing, empty or unparsable
   * deadline is never late (a comparison with an invalid date is false).
   */
  predicate IsLate(deadline: DateText, today: int)
  {
    deadline.Parsed? && today > deadline.value
  }

  /**
   * Every task with the id gets the status and the entry on top of its history;
   * the others are kept (`tasks.map(t => t.id === id ? {...} : t)`).
   */
  function SetStatus(tasks: seq<Task>, id: string, status: TaskStatus, entry: HistoryEntry): (r: seq<Task>)
    ensures |r| == |tasks|
    ensures forall i :: 0 <= i < |tasks| && tasks[i].id == id ==>
      r[i] == tasks[i].(status := status, history := [entry] + tasks[i].history)
    ensures forall i :: 0 <= i < |tasks| && tasks[i].id != id ==> r[i] == tasks[i]
  {
    seq(|tasks|, i requires 0 <= i < |tasks| =>
      if tasks[i].id == id then tasks[i].(status := status, history := [entry] + tasks[i].history) else tasks[i])
  }

  /**
   * The task list after moving task `id` to `status` at `now`, or None when no
   * task has that id. On an on-time completion the first Pending task of the
   * updated list is started.
   */
  function Moved(tasks: seq<Task>, id: string, status: TaskStatus, now: Instant): (r: Option<seq<Task>>)
    ensures r.None? <==> FindTask(tasks, id).None?
    ensures r.Some? ==> |r.value| == |tasks|
    ensures r.Some? ==> forall i :: 0 <= i < |tasks| ==> r.value[i].id == tasks[i].id
  {
    match FindTask(tasks, id)
    case None => None
    case Some(k) =>
      var task := tasks[k];
      var updated := SetStatus(tasks, id, status, StatusEntry(task.status, status, now.ms));
      if status == Completed && !IsLate(task.deadline, now.day) then
        match FirstPending(updated)
        case None => Some(updated)
        case Some(n) => Some(SetStatus(updated, updated[n].id, InProgress, AutoStartEntry(now.ms)))
      else Some(updated)
  }

  /**
   * The moved task (every task with that id) takes the new status and exactly
   * one STATUS entry by "You", naming the old and new status, on top of its
   * history. It is never the task that gets auto-started.
   */
  lemma {:induction false} MoveUpdatesTarget(tasks: seq<Task>, id: string, status: TaskStatus, now: Instant, i: int)
    requires FindTask(tasks, id).Some?
    requires 0 <= i < |tasks| && tasks[i].id == id
    ensures var from := tasks[FindTask(tasks, id).value].status;
      Moved(tasks, id, status, now).value[i]
        == tasks[i].(status := status, history := [StatusEntry(from, status, now.ms)] + tasks[i].history)
  {
    var k := FindTask(tasks, id).value;
    var updated := SetStatus(tasks, id, status, StatusEntry(tasks[k].status, status, now.ms));
    if status == Completed && !IsLate(tasks[k].deadline, now.day) {
      match FirstPending(updated)
      case None =>
      case Some(n) =>
        assert updated[i].status == Completed;
        assert updated[n].id != id;
    }
  }

  /**
   * Only an on-time completion touches tasks other than the moved one: a late
   * completion, or a move to any other status, leaves them all as they were.
   */
  lemma {:induction false} NoAutoAdvanceUnlessOnTime(tasks: seq<Task>, id: string, status: TaskStatus, now: Instant, j: int)
    requires FindTask(tasks, id).Some?
    requires status != Completed || IsLate(tasks[FindTask(tasks, id).value].deadline, now.day)
    requires 0 <= j < |tasks| && tasks[j].id != id
    ensures Moved(tasks, id, status, now).value[j] == tasks[j]
  {
  }

  /** Completing on time with no other Pending task changes no other task. */
  lemma {:induction false} NoPendingNoAutoAdvance(tasks: seq<Task>, id: string, now: Instant, j: int)
    requires FindTask(tasks, id).Some?
    requires forall m :: 0 <= m < |tasks| && tasks[m].id != id ==> tasks[m].status != Pending
    requires 0 <= j < |tasks| && tasks[j].id != id
    ensures Moved(tasks, id, Completed, now).value[j] == tasks[j]
  {
    var k := FindTask(tasks, id).value;
    var updated := SetStatus(tasks, id, Completed, StatusEntry(tasks[k].status, Completed, now.ms));
    assert forall m :: 0 <= m < |updated| ==> updated[m].status != Pending;
  }

  /**
   * Completing a task on time starts exactly the first Pending task among the
   * others, in list order, with one "System" STATUS entry, and changes no
   * other task (identifiers being distinct).
   */
  lemma {:induction false} AutoAdvanceStartsFirstPending(tasks: seq<Task>, id: string, now: Instant, k: int)
    requires UniqueIds(tasks)
    requires FindTask(tasks, id).Some? && !IsLate(tasks[FindTask(tasks, id).value].deadline, now.day)
    requires 0 <= k < |tasks| && tasks[k].id != id && tasks[k].status == Pending
    requires forall j :: 0 <= j < k && tasks[j].id != id ==> tasks[j].status != Pending
    ensures var r := Moved(tasks, id, Completed, now).value;
      && r[k] == tasks[k].(status := InProgress, history := [AutoStartEntry(now.ms)] + tasks[k].history)
      && forall j :: 0 <= j < |tasks| && j != k && tasks[j].id != id ==> r[j] == tasks[j]
  {
    var f := FindTask(tasks, id).value;
    var updated := SetStatus(tasks, id, Completed, StatusEntry(tasks[f].status, Completed, now.ms));
    FirstPendingOther(tasks, updated, id, k);
    var r := SetStatus(updated, tasks[k].id, InProgress, AutoStartEntry(now.ms));
    assert Moved(tasks, id, Completed, now) == Some(r);
    forall j | 0 <= j < |tasks| && j != k && tasks[j].id != id
      ensures r[j] == tasks[j]
    {
      assert tasks[j].id != tasks[k].id;
    }
  }

  /** After the moved tasks leave Pending, the first Pending task is the first Pending one among the others. */
  lemma FirstPendingOther(tasks: seq<Task>, updated: seq<Task>, id: string, k: int)
    requires |updated| == |tasks|
    requires forall i :: 0 <= i < |tasks| && tasks[i].id == id ==> updated[i].status == Completed
    requires forall i :: 0 <= i < |tasks| && tasks[i].id != id ==> updated[i] == tasks[i]
    requires 0 <= k < |tasks| && tasks[k].id != id && tasks[k].status == Pending
    requires forall j :: 0 <= j < k && tasks[j].id != id ==> tasks[j].status != Pending
    ensures FirstPending(updated) == Some(k)
  {
    assert updated[k].status == Pending;
    assert forall j :: 0 <= j < k ==> updated[j].status != Pending;
  }

  // ---------------------------------------------------------------------------
  // The completion gate
  // ---------------------------------------------------------------------------

  /** What happens to an updated project: written back at once, or held for confirmation. */
  datatype Outcome = Commit(project: Project) | Stage(project: Project)

  /**
   * `updateProjectTasks`: the project with the new tasks and recomputed progress,
   * staged when the update brings progress to 100 for the first time.
   */
  function Gate(current: Project, tasks: seq<Task>): (r: Outcome)
    ensures r.project == current.(tasks := tasks, progress := Progress(tasks))
    ensures r.Stage? <==> Progress(tasks) == 100 && current.progress < 100
  {
    var updated := current.(tasks := tasks, progress := Progress(tasks));
    if updated.progress == 100 && current.progress < 100 then Stage(updated) else Commit(updated)
  }

  /**
   * A staged update reaches 100%; a committed one with 100% can only come from a
   * project already at 100% or more.
   */
  lemma GateStagesFirstCompletion(current: Project, tasks: seq<Task>)
    requires tasks != [] && forall i :: 0 <= i < |tasks| ==> tasks[i].status == Completed
    requires current.progress < 100
    ensures Gate(current, tasks).Stage?
  {
    AllCompletedGivesFullProgress(tasks);
  }

  // ---------------------------------------------------------------------------
  // Creating, editing and deleting tasks
  // ---------------------------------------------------------------------------

  /** The new-task form; the empty string stands for an unset select or date input. */
  datatype TaskForm = TaskForm(
    title: string,
    description: string,
    priority: Priority,
    estimatedHours: int,
    assigneeId: string,
    deadline: DateText,
    reminderAt: DateText)

  /** The task `handleAddTask` builds from the form. */
  function NewTask(form: TaskForm, id: string, stamp: int): (t: Task)
    ensures t.id == id && t.title == form.title && t.description == form.description
    ensures t.status == Pending && t.priority == form.priority && t.estimatedHours == form.estimatedHours
    ensures t.history == [HistoryEntry(CreatedTag, "Task created", stamp, Some("You"))]
    ensures t.assigneeId.None? <==> form.assigneeId == ""
    ensures t.assigneeId.Some? ==> t.assigneeId.value == form.assigneeId
    ensures t.deadline != Blank && t.reminderAt != Blank
    ensures t.deadline.Truthy() ==> t.deadline == form.deadline
    ensures t.reminderAt.Truthy() ==> t.reminderAt == form.reminderAt
    ensures form.deadline.Truthy() == t.deadline.Truthy() && form.reminderAt.Truthy() == t.reminderAt.Truthy()
  {
    Task(
      id, form.title, form.description,
      if form.assigneeId == "" then None else Some(form.assigneeId),
      Pending, form.priority, form.deadline.Normalize(), form.estimatedHours,
      [HistoryEntry(CreatedTag, "Task created", stamp, Some("You"))],
      form.reminderAt.Normalize())
  }

  /** The fields `handleUpdateTask` compares, in the order it writes their entries. */
  datatype TaskField = TitleField | DescriptionField | PriorityField | AssigneeField | DeadlineField | ReminderField

  /** The number of compared fields. */
  const FieldCount := 6

  /** The `n`-th field in the order the entries are written. */
  function FieldAt(n: nat): TaskField
    requires n < FieldCount
  {
    if n == 0 then TitleField
    else if n == 1 then DescriptionField
    else if n == 2 then PriorityField
    else if n == 3 then AssigneeField
    else if n == 4 then DeadlineField
    else ReminderField
  }

  function FieldIndex(f: TaskField): (n: nat)
    ensures n < FieldCount && FieldAt(n) == f
  {
    match f
    case TitleField => 0
    case DescriptionField => 1
    case PriorityField => 2
    case AssigneeField => 3
    case DeadlineField => 4
    case ReminderField => 5
  }

  /**
   * Whether a field differs between the stored and the edited task. Deadline and
   * reminder are compared as stored strings after empty-to-missing
   * normalisation; the assignee is compared as it is, so a missing assignee and
   * "" differ.
   */
  predicate Differs(f: TaskField, original: Task, edited: Task)
  {
    match f
    case TitleField => original.title != edited.title
    case DescriptionField => original.description != edited.description
    case PriorityField => original.priority != edited.priority
    case AssigneeField => original.assigneeId != edited.assigneeId
    case DeadlineField => original.deadline.Normalize().Raw() != edited.deadline.Normalize().Raw()
    case ReminderField => original.reminderAt.Normalize().Raw() != edited.reminderAt.Normalize().Raw()
  }

  function TagOf(f: TaskField): ChangeType
  {
    match f
    case TitleField => InfoTag
    case DescriptionField => InfoTag
    case PriorityField => PriorityTag
    case AssigneeField => AssigneeTag
    case DeadlineField => DeadlineTag
    case ReminderField => InfoTag
  }

  /** The changed fields among the first `k` in the fixed order, in that order. */
  function ChangedUpTo(k: nat, original: Task, edited: Task): (r: seq<TaskField>)
    requires k <= FieldCount
    ensures |r| <= k
  {
    if k == 0 then []
    else ChangedUpTo(k - 1, original, edited) + (if Differs(FieldAt(k - 1), original, edited) then [FieldAt(k - 1)] else [])
  }

  /** The changed fields, in the fixed order title, description, priority, assignee, deadline, reminder. */
  function ChangedFields(original: Task, edited: Task): seq<TaskField>
  {
    ChangedUpTo(FieldCount, original, edited)
  }

  ghost predicate InFieldOrder(fields: seq<TaskField>)
  {
    forall i, j :: 0 <= i < j < |fields| ==> FieldIndex(fields[i]) < FieldIndex(fields[j])
  }

  /** A field is among the first `k` changed fields exactly when it comes before `k` and differs. */
  lemma {:induction false} ChangedUpToMembers(k: nat, original: Task, edited: Task)
    requires k <= FieldCount
    ensures forall f :: f in ChangedUpTo(k, original, edited) <==> FieldIndex(f) < k && Differs(f, original, edited)
  {
    if k > 0 {
      ChangedUpToMembers(k - 1, original, edited);
      forall f | FieldIndex(f) == k - 1
        ensures f == FieldAt(k - 1)
      {
      }
    }
  }

  lemma {:induction false} ChangedUpToOrdered(k: nat, original: Task, edited: Task)
    requires k <= FieldCount
    ensures InFieldOrder(ChangedUpTo(k, original, edited))
  {
    if k > 0 {
      var prefix := ChangedUpTo(k - 1, original, edited);
      ChangedUpToOrdered(k - 1, original, edited);
      ChangedUpToMembers(k - 1, original, edited);
      if Differs(FieldAt(k - 1), original, edited) {
        forall i | 0 <= i < |prefix|
          ensures FieldIndex(prefix[i]) < k - 1
        {
          assert prefix[i] in prefix;
        }
        AppendInOrder(prefix, FieldAt(k - 1));
      }
    }
  }

  /** A field after every listed one can be appended in order. */
  lemma AppendInOrder(fields: seq<TaskField>, f: TaskField)
    requires InFieldOrder(fields)
    requires forall i :: 0 <= i < |fields| ==> FieldIndex(fields[i]) < FieldIndex(f)
    ensures InFieldOrder(fields + [f])
  {
  }

  /** Exactly the differing fields are listed. */
  lemma ChangedFieldsMembers(original: Task, edited: Task)
    ensures forall f :: f in ChangedFields(original, edited) <==> Differs(f, original, edited)
  {
    ChangedUpToMembers(FieldCount, original, edited);
  }

  /** Changed fields come in strictly increasing field order, so no field appears twice. */
  lemma ChangedFieldsOrdered(original: Task, edited: Task)
    ensures InFieldOrder(ChangedFields(original, edited))
  {
    ChangedUpToOrdered(FieldCount, original, edited);
  }

  lemma {:induction false} NothingChangedUpTo(k: nat, original: Task, edited: Task)
    requires k <= FieldCount
    requires forall f :: !Differs(f, original, edited)
    ensures ChangedUpTo(k, original, edited) == []
  {
    if k > 0 {
      NothingChangedUpTo(k - 1, original, edited);
    }
  }

  /** Editing no field (up to normalisation of deadline and reminder) writes no entry. */
  lemma UnchangedEditWritesNothing(original: Task, edited: Task)
    requires original.title == edited.title && original.description == edited.description
    requires original.priority == edited.priority && original.assigneeId == edited.assigneeId
    requires original.deadline.Normalize().Raw() == edited.deadline.Normalize().Raw()
    requires original.reminderAt.Normalize().Raw() == edited.reminderAt.Normalize().Raw()
    ensures ChangedFields(original, edited) == []
  {
    NothingChangedUpTo(FieldCount, original, edited);
  }

  /**
   * The name shown for an assignee id: the member's name, or "Unassigned" when
   * the id is missing, unknown, or names a member whose name is empty.
   */
  function MemberName(team: seq<TeamMember>, id: Option<string>): (name: string)
    ensures name == "Unassigned" || (id.Some? && exists m :: m in team && m.id == id.value && m.name == name)
    ensures id.None? ==> name == "Unassigned"
    ensures id.Some? && (forall m :: m in team ==> m.id != id.value) ==> name == "Unassigned"
  {
    match id
    case None => "Unassigned"
    case Some(x) =>
      match FindMember(team, x)
      case None => "Unassigned"
      case Some(m) => if m.name == "" then "Unassigned" else m.name
  }

  function DateTextLabel(d: DateText): string
  {
    match d
    case Unset => "undefined"
    case Blank => ""
    case Parsed(text, _) => text
    case Unparsable(text) => text
  }

  /** The history entry for one changed field; every entry of one edit shares the stamp and the actor "You". */
  function EntryFor(f: TaskField, original: Task, edited: Task, team: seq<TeamMember>, stamp: int): (e: HistoryEntry)
    ensures e.changeType == TagOf(f) && e.timestamp == stamp && e.actorName == Some("You")
  {
    var description :=
      match f
      case TitleField => "Title updated to \"" + edited.title + "\""
      case DescriptionField => "Description updated"
      case PriorityField => "Priority changed from " + PriorityName(original.priority) + " to " + PriorityName(edited.priority)
      case AssigneeField =>
        "Assignee changed from " + MemberName(team, original.assigneeId) + " to " + MemberName(team, edited.assigneeId)
      case DeadlineField =>
        var newDeadline := edited.deadline.Normalize();
        if newDeadline.Truthy() then "Deadline updated to " + DateTextLabel(newDeadline)
        else "Deadline removed (was " + DateTextLabel(original.deadline.Normalize()) + ")"
      case ReminderField =>
        var newReminder := edited.reminderAt.Normalize();
        if newReminder.Truthy() then "Reminder set for " + DateTextLabel(newReminder) else "Reminder removed";
    HistoryEntry(TagOf(f), description, stamp, Some("You"))
  }

  /** The entries for a list of changed fields, one each, in the same order. */
  function Entries(fields: seq<TaskField>, original: Task, edited: Task, team: seq<TeamMember>, stamp: int): (r: seq<HistoryEntry>)
    ensures |r| == |fields|
    ensures forall i :: 0 <= i < |fields| ==> r[i] == EntryFor(fields[i], original, edited, team, stamp)
  {
    seq(|fields|, i requires 0 <= i < |fields| => EntryFor(fields[i], original, edited, team, stamp))
  }

  /** One `if (...) changes.push(...)` of the diff: the entry of the `k`-th field in the fixed order, when it changed. */
  method PushIfChanged(changes: seq<HistoryEntry>, changed: bool, k: nat, original: Task, edited: Task, team: seq<TeamMember>, stamp: int)
    returns (next: seq<HistoryEntry>)
    requires k < FieldCount
    requires changes == Entries(ChangedUpTo(k, original, edited), original, edited, team, stamp)
    requires changed == Differs(FieldAt(k), original, edited)
    ensures next == Entries(ChangedUpTo(k + 1, original, edited), original, edited, team, stamp)
  {
    next := changes;
    if changed {
      next := next + [EntryFor(FieldAt(k), original, edited, team, stamp)];
    }
  }

  /**
   * `handleUpdateTask`'s diff: one entry per changed field, in field order, built
   * by pushing onto a list as the source does.
   */
  method DiffHistory(original: Task, edited: Task, team: seq<TeamMember>, stamp: int) returns (changes: seq<HistoryEntry>)
    ensures changes == Entries(ChangedFields(original, edited), original, edited, team, stamp)
  {
    changes := [];
    changes := PushIfChanged(changes, original.title != edited.title, 0, original, edited, team, stamp);
    changes := PushIfChanged(changes, original.description != edited.description, 1, original, edited, team, stamp);
    changes := PushIfChanged(changes, original.priority != edited.priority, 2, original, edited, team, stamp);
    changes := PushIfChanged(changes, original.assigneeId != edited.assigneeId, 3, original, edited, team, stamp);
    changes := PushIfChanged(changes, original.deadline.Normalize().Raw() != edited.deadline.Normalize().Raw(), 4, original, edited, team, stamp);
    changes := PushIfChanged(changes, original.reminderAt.Normalize().Raw() != edited.reminderAt.Normalize().Raw(), 5, original, edited, team, stamp);
  }

  /** A list in strictly increasing field order whose only element is `x` is `[x]`. */
  lemma OnlyField(r: seq<TaskField>, x: TaskField)
    requires InFieldOrder(r)
    requires forall f :: f in r <==> f == x
    ensures r == [x]
  {
    assert x in r;
    assert r[0] in r && r[|r| - 1] in r;
  }

  /**
   * Clearing the assignee select of a task that had none stores "" where the
   * field was missing; because the assignee is compared without normalisation,
   * this writes an ASSIGNEE entry from "Unassigned" to "Unassigned".
   */
  lemma UnassignedToEmptyLogsAssigneeEntry(original: Task, team: seq<TeamMember>, stamp: int)
    requires original.assigneeId.None?
    requires forall m :: m in team ==> m.id != ""
    ensures var edited := original.(assigneeId := Some(""));
      && ChangedFields(original, edited) == [AssigneeField]
      && EntryFor(AssigneeField, original, edited, team, stamp).description
         == "Assignee changed from Unassigned to Unassigned"
  {
    OnlyAssigneeDiffers(original, original.(assigneeId := Some("")));
  }

  /** An edit that differs in the assignee alone lists the assignee field alone. */
  lemma OnlyAssigneeDiffers(original: Task, edited: Task)
    requires original.assigneeId != edited.assigneeId
    requires edited == original.(assigneeId := edited.assigneeId)
    ensures ChangedFields(original, edited) == [AssigneeField]
  {
    ChangedFieldsMembers(original, edited);
    ChangedFieldsOrdered(original, edited);
    OnlyField(ChangedFields(original, edited), AssigneeField);
  }

  /** The edited task as stored: normalised deadline and reminder, new entries on top of its history. */
  function EditedTask(edited: Task, changes: seq<HistoryEntry>): (t: Task)
    ensures t.history == changes + edited.history
    ensures t.deadline == edited.deadline.Normalize() && t.reminderAt == edited.reminderAt.Normalize()
    ensures t.(deadline := edited.deadline, reminderAt := edited.reminderAt, history := edited.history) == edited
  {
    edited.(deadline := edited.deadline.Normalize(), reminderAt := edited.reminderAt.Normalize(),
            history := changes + edited.history)
  }

  /** Every task with the id is replaced (`tasks.map(t => t.id === id ? task : t)`). */
  function ReplaceTask(tasks: seq<Task>, id: string, task: Task): (r: seq<Task>)
    ensures |r| == |tasks|
    ensures forall i :: 0 <= i < |tasks| ==> r[i] == if tasks[i].id == id then task else tasks[i]
  {
    seq(|tasks|, i requires 0 <= i < |tasks| => if tasks[i].id == id then task else tasks[i])
  }

  /** The tasks without those with the id, the others in their order (`tasks.filter(t => t.id !== id)`). */
  function RemoveTask(tasks: seq<Task>, id: string): (r: seq<Task>)
    ensures forall t :: t in r <==> t in tasks && t.id != id
    ensures |r| <= |tasks|
  {
    if |tasks| == 0 then []
    else (if tasks[0].id == id then [] else [tasks[0]]) + RemoveTask(tasks[1..], id)
  }

  /** `filter` keeps the order: removing the id from two lists in turn is removing it from the whole. */
  lemma {:induction false} RemoveTaskAppend(a: seq<Task>, b: seq<Task>, id: string)
    ensures RemoveTask(a + b, id) == RemoveTask(a, id) + RemoveTask(b, id)
  {
    if |a| == 0 {
      assert a + b == b;
    } else {
      assert (a + b)[1..] == a[1..] + b;
      RemoveTaskAppend(a[1..], b, id);
    }
  }

  /** Removing an id that is present shortens the list; one that is absent changes nothing. */
  lemma {:induction false} RemoveTaskLength(tasks: seq<Task>, id: string)
    ensures FindTask(tasks, id).None? ==> RemoveTask(tasks, id) == tasks
    ensures FindTask(tasks, id).Some? ==> |RemoveTask(tasks, id)| < |tasks|
  {
    if |tasks| > 0 {
      RemoveTaskLength(tasks[1..], id);
      assert [tasks[0]] + tasks[1..] == tasks;
    }
  }

  // ---------------------------------------------------------------------------
  // The deadline badge
  // ---------------------------------------------------------------------------

  /** What `getDeadlineStatus` shows: nothing, Overdue, Due Soon, the date, or "Invalid Date". */
  datatype DeadlineStatus = NoBadge | Overdue | DueSoon | OnDate(day: int) | InvalidDate

  /** The badge for a task on calendar day `today`; days until the deadline is `deadline - today`. */
  function DeadlineStatusOf(task: Task, today: int): (r: DeadlineStatus)
    ensures r == NoBadge <==> !task.deadline.Truthy() || task.status == Completed
  {
    if !task.deadline.Truthy() then NoBadge
    else if task.status == Completed then NoBadge
    else match task.deadline
      case Parsed(_, day) =>
        var diffDays := day - today;
        if diffDays < 0 then Overdue
        else if diffDays <= 2 then DueSoon
        else OnDate(day)
      case _ => InvalidDate
  }

  /** How urgent a badge is; the date label and "Invalid Date" rank lowest. */
  function Urgency(s: DeadlineStatus): nat
  {
    match s
    case Overdue => 2
    case DueSoon => 1
    case _ => 0
  }

  /**
   * The classification by days left: yesterday and before is Overdue, today
   * up to two days ahead is Due Soon, three days or more shows the date; a
   * completed task never shows a badge.
   */
  lemma {:induction false} DeadlineClassification(task: Task, today: int)
    ensures task.status == Completed ==> DeadlineStatusOf(task, today) == NoBadge
    ensures task.status != Completed && task.deadline.Parsed? ==>
      var day := task.deadline.value;
      && (DeadlineStatusOf(task, today) == Overdue <==> day < today)
      && (DeadlineStatusOf(task, today) == DueSoon <==> today <= day <= today + 2)
      && (DeadlineStatusOf(task, today) == OnDate(day) <==> day >= today + 3)
    ensures task.status != Completed && task.deadline.Unparsable? ==> DeadlineStatusOf(task, today) == InvalidDate
  {
    if task.status != Completed && task.deadline.Parsed? {
      assert task.deadline.Truthy();
    }
  }

  /** As days pass, a task's badge only becomes more urgent. */
  lemma {:induction false} UrgencyGrowsWithTime(task: Task, today: int, later: int)
    requires today <= later
    ensures Urgency(DeadlineStatusOf(task, today)) <= Urgency(DeadlineStatusOf(task, later))
  {
    if task.deadline.Truthy() && task.status != Completed && task.deadline.Parsed? {
      DeadlineClassification(task, today);
      DeadlineClassification(task, later);
    }
  }

  /**
   * The badge and the lateness test of a move agree: an open task shows
   * Overdue on exactly the days on which completing it counts as late.
   */
  lemma {:induction false} OverdueIffLate(task: Task, today: int)
    requires task.status != Completed
    ensures DeadlineStatusOf(task, today) == Overdue <==> IsLate(task.deadline, today)
  {
    if task.deadline.Parsed? {
      DeadlineClassification(task, today);
    }
  }

  // ---------------------------------------------------------------------------
  // The view
  // ---------------------------------------------------------------------------

  /**
   * The project-details view: the project it shows, the update staged by the
   * completion gate with its confirmation dialog, and the task picked for
   * deletion. Committing an update replaces `project`, which is what the
   * parent's `onUpdateProject` followed by a re-render does.
   */
  class ProjectView {
    var project: Project
    var pending: Option<Project>
    var confirmOpen: bool
    var taskToDelete: Option<Task>

    /** The confirmation dialog is open exactly while an update is staged, and only a first completion is staged. */
    ghost predicate Valid()
      reads this
    {
      && confirmOpen == pending.Some?
      && (pending.Some? ==> pending.value.progress == 100 && project.progress < 100)
    }

    constructor (shown: Project)
      ensures Valid()
      ensures project == shown && pending == None && !confirmOpen && taskToDelete == None
    {
      project := shown;
      pending := None;
      confirmOpen := false;
      taskToDelete := None;
    }

    /** `updateProjectTasks`: recompute progress and commit, or stage a first completion. */
    method UpdateProjectTasks(tasks: seq<Task>)
      requires Valid()
      modifies this
      ensures Valid()
      ensures taskToDelete == old(taskToDelete)
      ensures Gate(old(project), tasks).Commit? ==>
        project == Gate(old(project), tasks).project && pending == old(pending)
      ensures Gate(old(project), tasks).Stage? ==>
        project == old(project) && pending == Some(Gate(old(project), tasks).project)
    {
      var progress := Progress(tasks);
      var updated := project.(tasks := tasks, progress := progress);
      if progress == 100 && project.progress < 100 {
        pending := Some(updated);
        confirmOpen := true;
      } else {
        project := updated;
      }
    }

    /** `confirmProjectCompletion`: commit exactly the staged project, then clear the staging. */
    method ConfirmCompletion()
      requires Valid()
      modifies this
      ensures Valid()
      ensures pending == None && !confirmOpen && taskToDelete == old(taskToDelete)
      ensures project == if old(pending).Some? then old(pending).value else old(project)
    {
      if pending.Some? {
        project := pending.value;
      }
      confirmOpen := false;
      pending := None;
    }

    /** `cancelProjectCompletion`: discard the staged project; the shown one stays as it was. */
    method CancelCompletion()
      requires Valid()
      modifies this
      ensures Valid()
      ensures pending == None && !confirmOpen
      ensures project == old(project) && taskToDelete == old(taskToDelete)
    {
      confirmOpen := false;
      pending := None;
    }

    /** `moveTask`: an unknown id commits nothing; otherwise the moved list goes through the gate. */
    method MoveTask(taskId: string, newStatus: TaskStatus, now: Instant)
      requires Valid()
      modifies this
      ensures Valid()
      ensures taskToDelete == old(taskToDelete)
      ensures Moved(old(project.tasks), taskId, newStatus, now).None? ==>
        project == old(project) && pending == old(pending)
      ensures Moved(old(project.tasks), taskId, newStatus, now).Some? ==>
        var outcome := Gate(old(project), Moved(old(project.tasks), taskId, newStatus, now).value);
        if outcome.Stage? then project == old(project) && pending == Some(outcome.project)
        else project == outcome.project && pending == old(pending)
    {
      var found := FindTask(project.tasks, taskId);
      if found.None? {
        return;
      }
      var task := project.tasks[found.value];
      var updatedTasks := SetStatus(project.tasks, taskId, newStatus, StatusEntry(task.status, newStatus, now.ms));
      if newStatus == Completed {
        var isLate := false;
        if task.deadline.Truthy() {
          if task.deadline.Parsed? && now.day > task.deadline.value {
            isLate := true;
          }
        }
        if !isLate {
          var next := FirstPending(updatedTasks);
          if next.Some? {
            updatedTasks := SetStatus(updatedTasks, updatedTasks[next.value].id, InProgress, AutoStartEntry(now.ms));
          }
        }
      }
      assert Moved(project.tasks, taskId, newStatus, now) == Some(updatedTasks);
      UpdateProjectTasks(updatedTasks);
    }

    /** `handleAddTask`: an empty title does nothing; otherwise the new task goes at the end of the list. */
    method AddTask(form: TaskForm, newId: string, now: Instant)
      requires Valid()
      modifies this
      ensures Valid()
      ensures taskToDelete == old(taskToDelete)
      ensures form.title == "" ==> project == old(project) && pending == old(pending)
      ensures form.title != "" ==>
        var outcome := Gate(old(project), old(project.tasks) + [NewTask(form, newId, now.ms)]);
        if outcome.Stage? then project == old(project) && pending == Some(outcome.project)
        else project == outcome.project && pending == old(pending)
    {
      if form.title == "" {
        return;
      }
      var task := NewTask(form, newId, now.ms);
      UpdateProjectTasks(project.tasks + [task]);
    }

    /**
     * `handleUpdateTask`: when the edited task's id is in the project, its
     * changes are logged and it replaces the stored task.
     */
    method UpdateTask(edited: Task, team: seq<TeamMember>, now: Instant)
      requires Valid()
      modifies this
      ensures Valid()
      ensures taskToDelete == old(taskToDelete)
      ensures FindTask(old(project.tasks), edited.id).None? ==> project == old(project) && pending == old(pending)
      ensures FindTask(old(project.tasks), edited.id).Some? ==>
        var original := old(project.tasks)[FindTask(old(project.tasks), edited.id).value];
        var changes := Entries(ChangedFields(original, edited), original, edited, team, now.ms);
        var outcome := Gate(old(project), ReplaceTask(old(project.tasks), edited.id, EditedTask(edited, changes)));
        if outcome.Stage? then project == old(project) && pending == Some(outcome.project)
        else project == outcome.project && pending == old(pending)
    {
      var found := FindTask(project.tasks, edited.id);
      if found.None? {
        return;
      }
      var original := project.tasks[found.value];
      var changes := DiffHistory(original, edited, team, now.ms);
      var updatedTask := EditedTask(edited, changes);
      UpdateProjectTasks(ReplaceTask(project.tasks, edited.id, updatedTask));
    }

    /** `handleDeleteTaskClick`: remember the task to delete until the user confirms. */
    method RequestDeleteTask(task: Task)
      requires Valid()
      modifies this
      ensures Valid()
      ensures taskToDelete == Some(task) && project == old(project) && pending == old(pending)
    {
      taskToDelete := Some(task);
    }

    /** `confirmDeleteTask`: remove the remembered task's id from the list through the gate. */
    method ConfirmDeleteTask()
      requires Valid()
      modifies this
      ensures Valid()
      ensures old(taskToDelete).None? ==> project == old(project) && pending == old(pending) && taskToDelete == None
      ensures old(taskToDelete).Some? ==>
        && taskToDelete == None
        && var outcome := Gate(old(project), RemoveTask(old(project.tasks), old(taskToDelete).value.id));
           if outcome.Stage? then project == old(project) && pending == Some(outcome.project)
           else project == outcome.project && pending == old(pending)
    {
      if taskToDelete.Some? {
        UpdateProjectTasks(RemoveTask(project.tasks, taskToDelete.value.id));
        taskToDelete := None;
      }
    }
  }
}
