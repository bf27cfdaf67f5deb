/**
 * The records and enumerations of the project manager (types.ts), as Dafny values.
 *
 * Time is abstracted: a deadline is a calendar-day number, a reminder or a
 * timestamp is a number of milliseconds. A date-valued text field is a `DateText`,
 * which keeps apart the field that is missing, the empty string a cleared form
 * input leaves behind, a text that parses as a date, and one that does not.
 */
module Types {

  datatype Option<T> = None | Some(value: T)

  /** One reading of the clock: milliseconds since the epoch and the local calendar day they fall on. */
  datatype Instant = Instant(ms: int, day: int)

  /** The four task states; `StatusName` gives the label the source prints. */
  datatype TaskStatus = Pending | InProgress | Completed | Blocked

  datatype Priority = Low | Medium | High | Critical

  /** The six `changeType` tags of a history entry. */
  datatype ChangeType = StatusTag | PriorityTag | AssigneeTag | DeadlineTag | InfoTag | CreatedTag

  /** The three `type` tags of a notification. */
  datatype NotificationType = ReminderType | WarningType | InfoType

  datatype Severity = Low | Medium | High

  /** The views the application can show. */
  datatype View =
    | DashboardView
    | CompletedProjectsView
    | ProjectDetailsView
    | CreateProjectView
    | TeamManagementView

  /**
   * An optional date-valued text field: missing, the empty string, a text that
   * parses (to a day number for deadlines, to milliseconds for reminders), or a
   * text that does not parse. The text is kept because the source compares and
   * prints the field as a string.
   */
  datatype DateText = Unset | Blank | Parsed(text: string, value: int) | Unparsable(text: string)
  {
    /** JavaScript truthiness of the field: only the missing field and "" are falsy. */
    predicate Truthy()
    {
      Parsed? || Unparsable?
    }

    /** The source's `normalize`: the empty string becomes the missing field. */
    function Normalize(): (d: DateText)
      ensures d.Truthy() == Truthy()
      ensures d != Blank
      ensures Truthy() ==> d == this
    {
      if Blank? then Unset else this
    }

    /**
     * The string the source stores for the field, or none when it is missing.
     * The parsed value is left aside: two fields with the same text are equal
     * in the source whatever the model's parse of them.
     */
    function Raw(): (s: Option<string>)
      ensures s.None? <==> Unset?
      ensures Blank? ==> s == Some("")
      ensures (Parsed? || Unparsable?) ==> s == Some(text)
    {
      match this
      case Unset => None
      case Blank => Some("")
      case Parsed(t, _) => Some(t)
      case Unparsable(t) => Some(t)
    }
  }

  datatype TeamMember = TeamMember(id: string, name: string, role: string, skills: seq<string>, avatar: string)

  datatype HistoryEntry = HistoryEntry(changeType: ChangeType, description: string, timestamp: int, actorName: Option<string>)

  datatype Task = Task(
    id: string,
    title: string,
    description: string,
    assigneeId: Option<string>,
    status: TaskStatus,
    priority: Priority,
    deadline: DateText,
    estimatedHours: int,
    history: seq<HistoryEntry>,
    reminderAt: DateText)

  datatype Risk = Risk(id: string, description: string, severity: Severity, mitigationStrategy: string)

  datatype Project = Project(
    id: string,
    name: string,
    description: string,
    startDate: DateText,
    endDate: DateText,
    budget: int,
    techStack: seq<string>,
    tasks: seq<Task>,
    team: seq<TeamMember>,
    risks: seq<Risk>,
    progress: int)

  datatype User = User(id: string, name: string, email: string, role: string, avatar: Option<string>, passwordHash: Option<string>)

  datatype AppNotification = AppNotification(title: string, message: string, time: int, kind: NotificationType, read: bool)

  function StatusName(s: TaskStatus): string
  {
    match s
    case Pending => "Pending"
    case InProgress => "In Progress"
    case Completed => "Completed"
    case Blocked => "Blocked"
  }

  function PriorityName(p: Priority): string
  {
    match p
    case Low => "Low"
    case Medium => "Medium"
    case High => "High"
    case Critical => "Critical"
  }

  /** The avatar URL seeded with a name, used by registration and the member form. */
  function AvatarFor(name: string): (url: string)
    ensures |url| > |name| && url[|url| - |name|..] == name
  {
    "https://api.dicebear.com/7.x/avataaars/svg?seed=" + name
  }

  /** The first member with the given id, if any (`teamMembers.find(m => m.id === id)`). */
  function FindMember(team: seq<TeamMember>, id: string): (r: Option<TeamMember>)
    ensures r.Some? ==> r.value in team && r.value.id == id
    ensures r.Some? ==> exists i :: 0 <= i < |team| && team[i] == r.value && forall j :: 0 <= j < i ==> team[j].id != id
    ensures r.None? <==> forall m :: m in team ==> m.id != id
  {
    if |team| == 0 then None
    else if team[0].id == id then Some(team[0])
    else
      var r := FindMember(team[1..], id);
      assert r.Some? ==> exists i :: 0 <= i < |team| && team[i] == r.value && forall j :: 0 <= j < i ==> team[j].id != id by {
        if r.Some? {
          var i :| 0 <= i < |team[1..]| && team[1..][i] == r.value && forall j :: 0 <= j < i ==> team[1..][j].id != id;
          assert team[i + 1] == r.value;
          assert forall j :: 0 <= j < i + 1 ==> team[j].id != id by {
            forall j | 0 <= j < i + 1 ensures team[j].id != id {
              if j > 0 { assert team[j] == team[1..][j - 1]; }
            }
          }
        }
      }
      r
  }
}
