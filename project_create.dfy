/**
 * Project creation from a parsed plan (components/ProjectCreate.tsx): the
 * guard on the input text, the conversion of the plan into a `Project` with
 * its defaults, and the appending of a transcript to the input text.
 *
 * The plan is what the language model returned, taken as an arbitrary record:
 * every field it may leave out or leave falsy is an `Option` or a `DateText`.
 */
module ProjectCreate {
  import opened Types
  import Text
  import ProjectDetails
  import App

  /** One task of the parsed plan. */
  datatype RawTask = RawTask(
    title: string,
    description: Option<string>,
    priority: Option<Priority>,
    estimatedHours: Option<int>,
    deadline: DateText,
    assigneeId: Option<string>)

  /** The parsed plan. */
  datatype RawPlan = RawPlan(
    name: string,
    description: string,
    startDate: DateText,
    endDate: DateText,
    budget: Option<int>,
    techStack: Option<seq<string>>,
    tasks: Option<seq<RawTask>>)

  datatype Result<T> = Success(value: T) | Failure

  /** `if (!inputText.trim()) return;`: generation runs only for input with a non-white character. */
  predicate ShouldGenerate(input: string)
  {
    Text.Trim(input) != ""
  }

  /** Generation runs exactly when some character of the input is not white space. */
  lemma ShouldGenerateIff(input: string)
    ensures ShouldGenerate(input) <==> exists i :: 0 <= i < |input| && !Text.IsWhite(input[i])
  {
    Text.BlankIffAllWhite(input);
  }

  /** `x || fallback` for a text that may be missing or "". */
  function TextOr(x: Option<string>, fallback: string): (r: string)
    ensures x.Some? && x.value != "" ==> r == x.value
    ensures x.None? || x.value == "" ==> r == fallback
  {
    if x.Some? && x.value != "" then x.value else fallback
  }

  /** `x || fallback` for a number that may be missing or 0. */
  function NumberOr(x: Option<int>, fallback: int): (r: int)
    ensures x.Some? && x.value != 0 ==> r == x.value
    ensures x.None? || x.value == 0 ==> r == fallback
  {
    if x.Some? && x.value != 0 then x.value else fallback
  }

  /** A task deadline that is present but does not parse is dropped; any other value is kept. */
  function CheckedDeadline(d: DateText): (r: DateText)
    ensures !r.Unparsable?
    ensures d.Unparsable? ==> r == Unset
    ensures !d.Unparsable? ==> r == d
  {
    if d.Unparsable? then Unset else d
  }

  /** A present assignee id that names no team member is dropped; any other value is kept. */
  function CheckedAssignee(id: Option<string>, team: seq<TeamMember>): (r: Option<string>)
    ensures r.Some? && r.value != "" ==> FindMember(team, r.value).Some?
    ensures r.Some? ==> r == id
    ensures id.Some? && id.value != "" && FindMember(team, id.value).Some? ==> r == id
  {
    if id.Some? && id.value != "" && FindMember(team, id.value).None? then None else id
  }

  /** The task the conversion builds from a plan task. */
  function ConvertTask(t: RawTask, team: seq<TeamMember>, id: string, stamp: int): (task: Task)
    ensures task.id == id && task.title == t.title && task.status == Pending
    ensures task.description == TextOr(t.description, "")
    ensures task.priority == (if t.priority.Some? then t.priority.value else Priority.Medium)
    ensures task.estimatedHours == NumberOr(t.estimatedHours, 4)
    ensures task.deadline == CheckedDeadline(t.deadline) && task.assigneeId == CheckedAssignee(t.assigneeId, team)
    ensures task.history == [HistoryEntry(CreatedTag, "Task created via AI", stamp, Some("AI Agent"))]
    ensures task.reminderAt == Unset
  {
    Task(
      id, t.title, TextOr(t.description, ""),
      CheckedAssignee(t.assigneeId, team),
      Pending,
      if t.priority.Some? then t.priority.value else Priority.Medium,
      CheckedDeadline(t.deadline),
      NumberOr(t.estimatedHours, 4),
      [HistoryEntry(CreatedTag, "Task created via AI", stamp, Some("AI Agent"))],
      Unset)
  }

  /**
   * The start date (the plan's, or today) and the end date (the plan's, or 30
   * days after the start). Adding days to a start date that does not parse
   * gives an invalid date whose ISO form throws, so that case fails.
   */
  function Dates(plan: RawPlan, today: DateText, isoDate: int -> string): (r: Result<(DateText, DateText)>)
    requires today.Parsed?
    ensures r.Failure? <==> !plan.endDate.Truthy() && (plan.startDate.Truthy() && !plan.startDate.Parsed?)
    ensures r.Success? ==> r.value.0 == (if plan.startDate.Truthy() then plan.startDate else today)
    ensures r.Success? && plan.endDate.Truthy() ==> r.value.1 == plan.endDate
    ensures r.Success? && !plan.endDate.Truthy() ==> r.value.1.Parsed? && r.value.1.value == r.value.0.value + 30
  {
    var start := if plan.startDate.Truthy() then plan.startDate else today;
    if plan.endDate.Truthy() then Success((start, plan.endDate))
    else if start.Parsed? then Success((start, Parsed(isoDate(start.value + 30), start.value + 30)))
    else Failure
  }

  /** The project `handleGenerate` hands over, or Failure when its dates cannot be completed. */
  function ConvertPlan(plan: RawPlan, team: seq<TeamMember>, projectId: string, freshId: nat -> string,
                       today: DateText, stamp: int, isoDate: int -> string): (r: Result<Project>)
    requires today.Parsed?
    ensures r.Failure? <==> Dates(plan, today, isoDate).Failure?
    ensures r.Success? ==>
      var p := r.value;
      var raw := if plan.tasks.Some? then plan.tasks.value else [];
      && p.id == projectId && p.name == plan.name && p.description == plan.description
      && (p.startDate, p.endDate) == Dates(plan, today, isoDate).value
      && p.budget == NumberOr(plan.budget, 0)
      && p.techStack == (if plan.techStack.Some? then plan.techStack.value else [])
      && p.team == team && p.risks == [] && p.progress == 0
      && |p.tasks| == |raw|
      && forall i :: 0 <= i < |raw| ==> p.tasks[i] == ConvertTask(raw[i], team, freshId(i), stamp)
  {
    match Dates(plan, today, isoDate)
    case Failure => Failure
    case Success(dates) =>
      var raw := if plan.tasks.Some? then plan.tasks.value else [];
      Success(Project(
        projectId, plan.name, plan.description, dates.0, dates.1,
        NumberOr(plan.budget, 0),
        if plan.techStack.Some? then plan.techStack.value else [],
        seq(|raw|, i requires 0 <= i < |raw| => ConvertTask(raw[i], team, freshId(i), stamp)),
        team, [], 0))
  }

  /**
   * A generated project is consistent: its stored progress 0 is the progress of
   * its all-Pending tasks, it counts as active, every task is Pending with one
   * CREATED entry, no deadline is unparsable, and every truthy assignee is on
   * the team.
   */
  lemma GeneratedProjectConsistent(plan: RawPlan, team: seq<TeamMember>, projectId: string, freshId: nat -> string,
                                   today: DateText, stamp: int, isoDate: int -> string)
    requires today.Parsed?
    requires ConvertPlan(plan, team, projectId, freshId, today, stamp, isoDate).Success?
    ensures var p := ConvertPlan(plan, team, projectId, freshId, today, stamp, isoDate).value;
      && ProjectDetails.Progress(p.tasks) == p.progress
      && App.ActiveProjects([p]) == [p]
      && forall i :: 0 <= i < |p.tasks| ==>
           && p.tasks[i].status == Pending && |p.tasks[i].history| == 1
           && !p.tasks[i].deadline.Unparsable?
           && (p.tasks[i].assigneeId.Some? && p.tasks[i].assigneeId.value != "" ==>
                 FindMember(team, p.tasks[i].assigneeId.value).Some?)
  {
    var p := ConvertPlan(plan, team, projectId, freshId, today, stamp, isoDate).value;
    NoneCompleted(p.tasks);
    assert [p][1..] == [];
  }

  lemma {:induction false} NoneCompleted(tasks: seq<Task>)
    requires forall i :: 0 <= i < |tasks| ==> tasks[i].status == Pending
    ensures ProjectDetails.CompletedCount(tasks) == 0
    ensures ProjectDetails.Progress(tasks) == 0
  {
    if |tasks| > 0 {
      NoneCompleted(tasks[1..]);
      ProjectDetails.ProgressFullIff(tasks);
      ProjectDetails.DivAtLeast(|tasks|, 2 * |tasks|, 1);
    }
  }

  /** `prev + (prev.trim().length > 0 ? '\n\n' : '') + text`. */
  function AppendTranscript(prev: string, text: string): (r: string)
    ensures ShouldGenerate(prev) ==> r == prev + "\n\n" + text
    ensures !ShouldGenerate(prev) ==> r == prev + text
    ensures |r| >= |prev| + |text| && r[..|prev|] == prev && r[|r| - |text|..] == text
  {
    prev + (if Text.Trim(prev) != "" then "\n\n" else "") + text
  }

  /** The transcript is separated by a blank line exactly when the input already has visible text. */
  lemma TranscriptSeparatedIff(prev: string, text: string)
    ensures |AppendTranscript(prev, text)| == |prev| + |text| + 2 <==> exists i :: 0 <= i < |prev| && !Text.IsWhite(prev[i])
    ensures |AppendTranscript(prev, text)| == |prev| + |text| <==> forall i :: 0 <= i < |prev| ==> Text.IsWhite(prev[i])
  {
    ShouldGenerateIff(prev);
  }

  /** The text box of the create view. */
  class CreateForm {
    var inputText: string

    /** The saved draft, or "" when there is none. */
    constructor (draft: string)
      ensures inputText == draft
    {
      inputText := draft;
    }

    /** A transcription arrived: append it to the input. */
    method OnTranscript(text: string)
      modifies this
      ensures inputText == AppendTranscript(old(inputText), text)
    {
      var spacer := if Text.Trim(inputText) != "" then "\n\n" else "";
      inputText := inputText + spacer + text;
    }

    /**
     * `handleGenerate` given the plan the model returned: nothing for a blank
     * input; otherwise the converted project, after which the input is cleared,
     * or nothing (and the input kept) when the conversion fails.
     */
    method Generate(plan: RawPlan, team: seq<TeamMember>, projectId: string, freshId: nat -> string,
                    today: DateText, stamp: int, isoDate: int -> string) returns (created: Option<Project>)
      requires today.Parsed?
      modifies this
      ensures !ShouldGenerate(old(inputText)) ==> created == None && inputText == old(inputText)
      ensures ShouldGenerate(old(inputText)) ==>
        match ConvertPlan(plan, team, projectId, freshId, today, stamp, isoDate)
        case Failure => created == None && inputText == old(inputText)
        case Success(p) => created == Some(p) && inputText == ""
    {
      if Text.Trim(inputText) == "" {
        return None;
      }
      var result := ConvertPlan(plan, team, projectId, freshId, today, stamp, isoDate);
      if result.Failure? {
        return None;
      }
      created := Some(result.value);
      inputText := "";
    }
  }
}
