/**
 * The top-level coordinator (App.tsx): the lists of projects, team members and
 * notifications the application owns, the view and project selection, the
 * reminder scan with its notification de-duplication, and the handlers that
 * create, replace and delete projects and propagate roster edits into every
 * project's team snapshot.
 */
module App {
  import opened Types
  import ProjectDetails

  // ---------------------------------------------------------------------------
  // Notifications and the reminder scan
  // ---------------------------------------------------------------------------

  /** The de-duplication window and the "due within the last minute" window, in milliseconds. */
  const Minute := 60000

  /** `Math.abs(t - now) < 60000`. */
  predicate Near(t: int, now: int)
  {
    -Minute < t - now < Minute
  }

  /** A notification with this title stamped within a minute of `now`. */
  predicate Recent(n: AppNotification, title: string, now: int)
  {
    n.title == title && Near(n.time, now)
  }

  /** `prev.some(n => n.title === title && Math.abs(n.time - now) < 60000)`. */
  predicate HasRecent(notes: seq<AppNotification>, title: string, now: int)
  {
    exists i :: 0 <= i < |notes| && Recent(notes[i], title, now)
  }

  /**
   * The list update a fired reminder queues: dropped when a recent notification
   * has the same title, otherwise put in front.
   */
  function Offer(notes: seq<AppNotification>, n: AppNotification, now: int): (r: seq<AppNotification>)
    ensures r == notes || r == [n] + notes
    ensures r == notes <==> HasRecent(notes, n.title, now)
  {
    if HasRecent(notes, n.title, now) then notes else [n] + notes
  }

  /** No two notifications stamped within a minute of `now` share a title. */
  ghost predicate NoRecentTwins(notes: seq<AppNotification>, now: int)
  {
    forall i, j :: 0 <= i < j < |notes| && notes[i].title == notes[j].title ==>
      !(Near(notes[i].time, now) && Near(notes[j].time, now))
  }

  /**
   * Offering a notification stamped `now` keeps the old list as a suffix, leaves
   * a recent notification with its title in the list, keeps every recent title
   * that was there, and never creates two recent notifications with one title.
   * Offering it again changes nothing.
   */
  lemma OfferProperties(notes: seq<AppNotification>, n: AppNotification, now: int)
    requires n.time == now
    ensures var r := Offer(notes, n, now);
      && |notes| <= |r| <= |notes| + 1
      && r[|r| - |notes|..] == notes
      && HasRecent(r, n.title, now)
      && (forall title :: HasRecent(notes, title, now) ==> HasRecent(r, title, now))
      && (NoRecentTwins(notes, now) ==> NoRecentTwins(r, now))
      && Offer(r, n, now) == r
  {
    var r := Offer(notes, n, now);
    if !HasRecent(notes, n.title, now) {
      assert Recent(r[0], n.title, now);
      forall title | HasRecent(notes, title, now)
        ensures HasRecent(r, title, now)
      {
        var i :| 0 <= i < |notes| && Recent(notes[i], title, now);
        assert r[i + 1] == notes[i];
      }
      if NoRecentTwins(notes, now) {
        forall i, j | 0 <= i < j < |r| && r[i].title == r[j].title
          ensures !(Near(r[i].time, now) && Near(r[j].time, now))
        {
          if i == 0 {
            assert r[j] == notes[j - 1];
          } else {
            assert r[i] == notes[i - 1] && r[j] == notes[j - 1];
          }
        }
      }
    }
  }

  /** The task has a reminder that parses and fell due within the last minute, and is not completed. */
  predicate ReminderDue(task: Task, now: int)
  {
    && task.status != Completed
    && task.reminderAt.Parsed?
    && 0 <= now - task.reminderAt.value < Minute
  }

  function ReminderTitle(task: Task): string
  {
    "Reminder: " + task.title
  }

  /** The unread reminder notification the scan builds for a task of a project. */
  function ReminderFor(project: Project, task: Task, now: int): (n: AppNotification)
    ensures n.title == ReminderTitle(task) && n.time == now && n.kind == ReminderType && !n.read
  {
    AppNotification(ReminderTitle(task), "Project: " + project.name + " - Task is due soon!", now, ReminderType, false)
  }

  /** The scan's effect for one task. */
  function ScanTask(notes: seq<AppNotification>, project: Project, task: Task, now: int): seq<AppNotification>
  {
    if ReminderDue(task, now) then Offer(notes, ReminderFor(project, task, now), now) else notes
  }

  /** The scan over the tasks of one project, in list order. */
  function ScanTasks(notes: seq<AppNotification>, project: Project, tasks: seq<Task>, now: int): seq<AppNotification>
  {
    if |tasks| == 0 then notes
    else ScanTask(ScanTasks(notes, project, tasks[..|tasks| - 1], now), project, tasks[|tasks| - 1], now)
  }

  /** The whole scan: every project in order, every task of each in order. */
  function ScanProjects(notes: seq<AppNotification>, projects: seq<Project>, now: int): seq<AppNotification>
  {
    if |projects| == 0 then notes
    else
      var last := projects[|projects| - 1];
      ScanTasks(ScanProjects(notes, projects[..|projects| - 1], now), last, last.tasks, now)
  }

  /** A reminder of a due task of one of the projects. */
  ghost predicate IsDueReminder(n: AppNotification, projects: seq<Project>, now: int)
  {
    exists p, t :: p in projects && t in p.tasks && ReminderDue(t, now) && n == ReminderFor(p, t, now)
  }

  /** `r` is `notes` with notifications put in front, each a reminder of a due task. */
  ghost predicate GrowsBy(notes: seq<AppNotification>, r: seq<AppNotification>, projects: seq<Project>, now: int)
  {
    && |notes| <= |r|
    && r[|r| - |notes|..] == notes
    && forall i :: 0 <= i < |r| - |notes| ==> IsDueReminder(r[i], projects, now)
  }

  /** Growth through an intermediate list composes. */
  lemma GrowsByTrans(notes: seq<AppNotification>, mid: seq<AppNotification>, r: seq<AppNotification>,
                     ps: seq<Project>, qs: seq<Project>, projects: seq<Project>, now: int)
    requires GrowsBy(notes, mid, ps, now) && GrowsBy(mid, r, qs, now)
    requires forall p :: p in ps ==> p in projects
    requires forall p :: p in qs ==> p in projects
    ensures GrowsBy(notes, r, projects, now)
  {
    var d := |r| - |mid|;
    assert r[|r| - |notes|..] == r[d..][|mid| - |notes|..];
    forall i | 0 <= i < |r| - |notes|
      ensures IsDueReminder(r[i], projects, now)
    {
      if i >= d {
        assert r[i] == mid[i - d];
      }
    }
  }

  /**
   * What one project's part of the scan does: it only puts due reminders in
   * front, leaves a recent notification for every due task, keeps every recent
   * title, and never makes two recent notifications share a title.
   */
  lemma {:induction false} ScanTasksProperties(notes: seq<AppNotification>, project: Project, tasks: seq<Task>, now: int)
    requires forall t :: t in tasks ==> t in project.tasks
    ensures var r := ScanTasks(notes, project, tasks, now);
      && GrowsBy(notes, r, [project], now)
      && (forall t :: t in tasks && ReminderDue(t, now) ==> HasRecent(r, ReminderTitle(t), now))
      && (forall title :: HasRecent(notes, title, now) ==> HasRecent(r, title, now))
      && (NoRecentTwins(notes, now) ==> NoRecentTwins(r, now))
  {
    if |tasks| > 0 {
      var init := tasks[..|tasks| - 1];
      var t := tasks[|tasks| - 1];
      ScanTasksProperties(notes, project, init, now);
      var mid := ScanTasks(notes, project, init, now);
      var r := ScanTasks(notes, project, tasks, now);
      assert r == ScanTask(mid, project, t, now);
      ScanTaskProperties(mid, project, t, now);
      GrowsByTrans(notes, mid, r, [project], [project], [project], now);
      forall u | u in tasks && ReminderDue(u, now)
        ensures HasRecent(r, ReminderTitle(u), now)
      {
        if u != t {
          assert u in init;
        }
      }
    }
  }

  /** One task's step of the scan. */
  lemma ScanTaskProperties(notes: seq<AppNotification>, project: Project, t: Task, now: int)
    requires t in project.tasks
    ensures var r := ScanTask(notes, project, t, now);
      && GrowsBy(notes, r, [project], now)
      && (ReminderDue(t, now) ==> HasRecent(r, ReminderTitle(t), now))
      && (forall title :: HasRecent(notes, title, now) ==> HasRecent(r, title, now))
      && (NoRecentTwins(notes, now) ==> NoRecentTwins(r, now))
  {
    var r := ScanTask(notes, project, t, now);
    if ReminderDue(t, now) {
      var n := ReminderFor(project, t, now);
      OfferProperties(notes, n, now);
      assert IsDueReminder(n, [project], now) by {
        assert project in [project];
      }
    } else {
      assert r[|r| - |notes|..] == notes;
    }
  }

  /**
   * The whole scan: the old list stays below the new entries, every new entry
   * is the reminder of a due task, every due task has a recent notification
   * with its title, and no two recent notifications share a title.
   */
  lemma {:induction false} ScanProperties(notes: seq<AppNotification>, projects: seq<Project>, now: int)
    ensures var r := ScanProjects(notes, projects, now);
      && GrowsBy(notes, r, projects, now)
      && (forall p, t :: p in projects && t in p.tasks && ReminderDue(t, now) ==> HasRecent(r, ReminderTitle(t), now))
      && (NoRecentTwins(notes, now) ==> NoRecentTwins(r, now))
  {
    if |projects| > 0 {
      var init := projects[..|projects| - 1];
      var last := projects[|projects| - 1];
      ScanProperties(notes, init, now);
      var mid := ScanProjects(notes, init, now);
      var r := ScanProjects(notes, projects, now);
      ScanTasksProperties(mid, last, last.tasks, now);
      GrowsByTrans(notes, mid, r, init, [last], projects, now);
      forall p, t | p in projects && t in p.tasks && ReminderDue(t, now)
        ensures HasRecent(r, ReminderTitle(t), now)
      {
        if p != last {
          assert p in init;
        }
      }
    }
  }

  lemma {:induction false} NothingDueInTasks(notes: seq<AppNotification>, project: Project, tasks: seq<Task>, now: int)
    requires forall t :: t in tasks ==> !ReminderDue(t, now)
    ensures ScanTasks(notes, project, tasks, now) == notes
  {
    if |tasks| > 0 {
      NothingDueInTasks(notes, project, tasks[..|tasks| - 1], now);
      assert tasks[|tasks| - 1] in tasks;
    }
  }

  /** With no task due, the scan leaves the notification list as it is. */
  lemma {:induction false} NothingDueNothingAdded(notes: seq<AppNotification>, projects: seq<Project>, now: int)
    requires forall p, t :: p in projects && t in p.tasks ==> !ReminderDue(t, now)
    ensures ScanProjects(notes, projects, now) == notes
  {
    if |projects| > 0 {
      var last := projects[|projects| - 1];
      NothingDueNothingAdded(notes, projects[..|projects| - 1], now);
      assert last in projects;
      NothingDueInTasks(notes, last, last.tasks, now);
    }
  }

  // ---------------------------------------------------------------------------
  // Project and roster transforms
  // ---------------------------------------------------------------------------

  /** Index of the first project with the id (`projects.find(p => p.id === id)`). */
  function FindProject(projects: seq<Project>, id: string): (r: Option<nat>)
    ensures r.Some? ==> r.value < |projects| && projects[r.value].id == id
    ensures r.Some? ==> forall j :: 0 <= j < r.value ==> projects[j].id != id
    ensures r.None? <==> forall i :: 0 <= i < |projects| ==> projects[i].id != id
  {
    if |projects| == 0 then None
    else if projects[0].id == id then Some(0)
    else match FindProject(projects[1..], id)
      case None => None
      case Some(k) => Some(k + 1)
  }

  /** `projects.map(p => p.id === updated.id ? updated : p)`. */
  function ReplaceProject(projects: seq<Project>, updated: Project): (r: seq<Project>)
    ensures |r| == |projects|
    ensures forall i :: 0 <= i < |projects| ==> r[i] == if projects[i].id == updated.id then updated else projects[i]
  {
    seq(|projects|, i requires 0 <= i < |projects| => if projects[i].id == updated.id then updated else projects[i])
  }

  /** `projects.filter(p => p.id !== id)`. */
  function RemoveProject(projects: seq<Project>, id: string): (r: seq<Project>)
    ensures forall p :: p in r <==> p in projects && p.id != id
    ensures |r| <= |projects|
  {
    if |projects| == 0 then []
    else (if projects[0].id == id then [] else [projects[0]]) + RemoveProject(projects[1..], id)
  }

  /** `filter` keeps the order: removing the project from two lists in turn is removing it from the whole. */
  lemma {:induction false} RemoveProjectAppend(a: seq<Project>, b: seq<Project>, id: string)
    ensures RemoveProject(a + b, id) == RemoveProject(a, id) + RemoveProject(b, id)
  {
    if |a| == 0 {
      assert a + b == b;
    } else {
      assert (a + b)[1..] == a[1..] + b;
      RemoveProjectAppend(a[1..], b, id);
    }
  }

  /** `team.map(m => m.id === member.id ? member : m)`. */
  function ReplaceMember(team: seq<TeamMember>, member: TeamMember): (r: seq<TeamMember>)
    ensures |r| == |team|
    ensures forall i :: 0 <= i < |team| ==> r[i] == if team[i].id == member.id then member else team[i]
  {
    seq(|team|, i requires 0 <= i < |team| => if team[i].id == member.id then member else team[i])
  }

  /** `team.filter(m => m.id !== id)`. */
  function RemoveMember(team: seq<TeamMember>, id: string): (r: seq<TeamMember>)
    ensures forall m :: m in r <==> m in team && m.id != id
    ensures |r| <= |team|
  {
    if |team| == 0 then []
    else (if team[0].id == id then [] else [team[0]]) + RemoveMember(team[1..], id)
  }

  /** `filter` keeps the order: removing the member from two rosters in turn is removing it from the whole. */
  lemma {:induction false} RemoveMemberAppend(a: seq<TeamMember>, b: seq<TeamMember>, id: string)
    ensures RemoveMember(a + b, id) == RemoveMember(a, id) + RemoveMember(b, id)
  {
    if |a| == 0 {
      assert a + b == b;
    } else {
      assert (a + b)[1..] == a[1..] + b;
      RemoveMemberAppend(a[1..], b, id);
    }
  }

  /** Every project's team snapshot with the member replaced; nothing else changes. */
  function SyncMember(projects: seq<Project>, member: TeamMember): (r: seq<Project>)
    ensures |r| == |projects|
    ensures forall i :: 0 <= i < |projects| ==> r[i] == projects[i].(team := ReplaceMember(projects[i].team, member))
  {
    seq(|projects|, i requires 0 <= i < |projects| => projects[i].(team := ReplaceMember(projects[i].team, member)))
  }

  /** Every project's team snapshot without the member; nothing else, tasks included, changes. */
  function DropMember(projects: seq<Project>, id: string): (r: seq<Project>)
    ensures |r| == |projects|
    ensures forall i :: 0 <= i < |projects| ==> r[i] == projects[i].(team := RemoveMember(projects[i].team, id))
  {
    seq(|projects|, i requires 0 <= i < |projects| => projects[i].(team := RemoveMember(projects[i].team, id)))
  }

  /** After an update, a member with that id is the updated one; the ids and the other members stay. */
  lemma UpdatedMemberEverywhere(projects: seq<Project>, member: TeamMember)
    ensures var r := SyncMember(projects, member);
      forall i, k :: 0 <= i < |r| && 0 <= k < |r[i].team| ==>
        && r[i].team[k].id == projects[i].team[k].id
        && (r[i].team[k].id == member.id ==> r[i].team[k] == member)
        && (r[i].team[k].id != member.id ==> r[i].team[k] == projects[i].team[k])
        && r[i].tasks == projects[i].tasks
  {
  }

  /** Replacing a member twice is replacing it once. */
  lemma ReplaceMemberIdempotent(team: seq<TeamMember>, member: TeamMember)
    ensures ReplaceMember(ReplaceMember(team, member), member) == ReplaceMember(team, member)
  {
  }

  /**
   * Deleting a member leaves task assignments as they were: a task assigned to
   * the removed id keeps that id, and its assignee is then shown as
   * "Unassigned" because the id is no longer on the roster.
   */
  lemma DeletedMemberStaysAssigned(projects: seq<Project>, roster: seq<TeamMember>, id: string, i: int, k: int)
    requires 0 <= i < |projects| && 0 <= k < |projects[i].tasks|
    requires projects[i].tasks[k].assigneeId == Some(id)
    ensures var r := DropMember(projects, id);
      && r[i].tasks[k].assigneeId == Some(id)
      && ProjectDetails.MemberName(RemoveMember(roster, id), r[i].tasks[k].assigneeId) == "Unassigned"
      && forall m :: m in r[i].team ==> m.id != id
  {
  }

  /** The active list: projects with progress below 100. */
  function ActiveProjects(projects: seq<Project>): (r: seq<Project>)
    ensures forall p :: p in r <==> p in projects && p.progress < 100
  {
    if |projects| == 0 then []
    else (if projects[0].progress < 100 then [projects[0]] else []) + ActiveProjects(projects[1..])
  }

  /** The completed list: projects with progress exactly 100. */
  function CompletedProjects(projects: seq<Project>): (r: seq<Project>)
    ensures forall p :: p in r <==> p in projects && p.progress == 100
  {
    if |projects| == 0 then []
    else (if projects[0].progress == 100 then [projects[0]] else []) + CompletedProjects(projects[1..])
  }

  /** The active list keeps the projects' order: listing two parts in turn is listing the whole. */
  lemma {:induction false} ActiveProjectsAppend(a: seq<Project>, b: seq<Project>)
    ensures ActiveProjects(a + b) == ActiveProjects(a) + ActiveProjects(b)
  {
    if |a| == 0 {
      assert a + b == b;
    } else {
      assert (a + b)[0] == a[0] && (a + b)[1..] == a[1..] + b;
      ActiveProjectsAppend(a[1..], b);
    }
  }

  /** The completed list keeps the projects' order: listing two parts in turn is listing the whole. */
  lemma {:induction false} CompletedProjectsAppend(a: seq<Project>, b: seq<Project>)
    ensures CompletedProjects(a + b) == CompletedProjects(a) + CompletedProjects(b)
  {
    if |a| == 0 {
      assert a + b == b;
    } else {
      assert (a + b)[0] == a[0] && (a + b)[1..] == a[1..] + b;
      CompletedProjectsAppend(a[1..], b);
    }
  }

  /**
   * With every progress in 0..100 the two lists split the projects: each
   * project is in exactly one, and their lengths add up to the total.
   */
  lemma {:induction false} ActiveCompletedPartition(projects: seq<Project>)
    requires forall i :: 0 <= i < |projects| ==> 0 <= projects[i].progress <= 100
    ensures |ActiveProjects(projects)| + |CompletedProjects(projects)| == |projects|
    ensures forall p :: p in projects ==> (p in ActiveProjects(projects) <==> p !in CompletedProjects(projects))
  {
    if |projects| > 0 {
      ActiveCompletedPartition(projects[1..]);
    }
  }

  /** JavaScript truthiness of the selected id: present and not "". */
  predicate Selected(selection: Option<string>)
  {
    selection.Some? && selection.value != ""
  }

  /** The two kinds of search result. */
  datatype ResultKind = ProjectResult | TeamResult

  // ---------------------------------------------------------------------------
  // The application state
  // ---------------------------------------------------------------------------

  /**
   * The state the application component owns. Each handler overwrites some of
   * these fields, as the corresponding `set...` calls do.
   */
  class AppState {
    var projects: seq<Project>
    var teamMembers: seq<TeamMember>
    var notifications: seq<AppNotification>
    var selectedProjectId: Option<string>
    var view: View
    var currentUser: Option<User>

    /** A details view never points at a missing project (what the safety effect restores). */
    predicate SelectionResolves()
      reads this
    {
      view == ProjectDetailsView && Selected(selectedProjectId) ==> FindProject(projects, selectedProjectId.value).Some?
    }

    /** The state on first render: the saved lists, or the seed roster when no team was saved. */
    constructor (savedProjects: seq<Project>, savedTeam: Option<seq<TeamMember>>, savedNotifications: seq<AppNotification>)
      ensures projects == savedProjects && notifications == savedNotifications
      ensures teamMembers == if savedTeam.Some? then savedTeam.value else InitialTeam()
      ensures selectedProjectId == None && view == DashboardView && currentUser == None
    {
      projects := savedProjects;
      teamMembers := if savedTeam.Some? then savedTeam.value else InitialTeam();
      notifications := savedNotifications;
      selectedProjectId := None;
      view := DashboardView;
      currentUser := None;
    }

    /**
     * One run of `checkReminders` at `now`: nothing while signed out; otherwise
     * every task of every project, in order, offers its reminder when due.
     */
    method CheckReminders(now: int)
      modifies this
      ensures projects == old(projects) && teamMembers == old(teamMembers) && selectedProjectId == old(selectedProjectId)
      ensures view == old(view) && currentUser == old(currentUser)
      ensures currentUser.None? ==> notifications == old(notifications)
      ensures currentUser.Some? ==> notifications == ScanProjects(old(notifications), projects, now)
    {
      if currentUser.None? {
        return;
      }
      var all := projects;
      var i := 0;
      while i < |all|
        invariant 0 <= i <= |all|
        invariant projects == all && unchanged(this`teamMembers, this`selectedProjectId, this`view, this`currentUser)
        invariant notifications == ScanProjects(old(notifications), all[..i], now)
      {
        var project := all[i];
        var before := notifications;
        var j := 0;
        while j < |project.tasks|
          invariant 0 <= j <= |project.tasks|
          invariant projects == all && unchanged(this`teamMembers, this`selectedProjectId, this`view, this`currentUser)
          invariant notifications == ScanTasks(before, project, project.tasks[..j], now)
        {
          var task := project.tasks[j];
          if task.status != Completed && task.reminderAt.Truthy() && task.reminderAt.Parsed? {
            var timeDiff := now - task.reminderAt.value;
            if timeDiff >= 0 && timeDiff < Minute {
              notifications := Offer(notifications, ReminderFor(project, task, now), now);
            }
          }
          assert project.tasks[..j + 1][..j] == project.tasks[..j];
          j := j + 1;
        }
        assert project.tasks[..j] == project.tasks;
        assert all[..i + 1][..i] == all[..i];
        i := i + 1;
      }
      assert all[..i] == all;
    }

    /** The bell's "clear all": the list becomes empty. */
    method ClearNotifications()
      modifies this`notifications
      ensures notifications == []
    {
      notifications := [];
    }

    /** `handleCreateProject`: the project, with the current roster as its team, goes in front; back to the dashboard. */
    method CreateProject(newProject: Project)
      modifies this`projects, this`view
      ensures projects == [newProject.(team := teamMembers)] + old(projects)
      ensures view == DashboardView
    {
      projects := [newProject.(team := teamMembers)] + projects;
      view := DashboardView;
    }

    /** `handleUpdateProject`: every project with the id is replaced. */
    method UpdateProject(updated: Project)
      modifies this`projects
      ensures projects == ReplaceProject(old(projects), updated)
    {
      projects := ReplaceProject(projects, updated);
    }

    /** `handleDeleteProject`: the project goes; a selection of it is dropped together with the details view. */
    method DeleteProject(projectId: string)
      modifies this`projects, this`view, this`selectedProjectId
      ensures projects == RemoveProject(old(projects), projectId)
      ensures old(selectedProjectId) == Some(projectId) ==> view == DashboardView && selectedProjectId == None
      ensures old(selectedProjectId) != Some(projectId) ==> view == old(view) && selectedProjectId == old(selectedProjectId)
      ensures old(SelectionResolves()) ==> SelectionResolves()
    {
      projects := RemoveProject(projects, projectId);
      if selectedProjectId == Some(projectId) {
        view := DashboardView;
        selectedProjectId := None;
      }
      if old(SelectionResolves()) && view == ProjectDetailsView && Selected(selectedProjectId) {
        var k := FindProject(old(projects), selectedProjectId.value).value;
        assert old(projects)[k] in projects;
      }
    }

    /** `handleAddMember`: the member goes at the end of the roster. */
    method AddMember(member: TeamMember)
      modifies this`teamMembers
      ensures teamMembers == old(teamMembers) + [member]
    {
      teamMembers := teamMembers + [member];
    }

    /** `handleUpdateMember`: the member is replaced on the roster and in every project's team. */
    method UpdateMember(member: TeamMember)
      modifies this`teamMembers, this`projects
      ensures teamMembers == ReplaceMember(old(teamMembers), member)
      ensures projects == SyncMember(old(projects), member)
    {
      teamMembers := ReplaceMember(teamMembers, member);
      projects := SyncMember(projects, member);
    }

    /** `handleDeleteMember`: the id leaves the roster and every project's team; tasks are not touched. */
    method DeleteMember(id: string)
      modifies this`teamMembers, this`projects
      ensures teamMembers == RemoveMember(old(teamMembers), id)
      ensures projects == DropMember(old(projects), id)
    {
      teamMembers := RemoveMember(teamMembers, id);
      projects := DropMember(projects, id);
    }

    /** The safety effect: a details view whose selected project is gone falls back to the dashboard. */
    method SafetyFallback()
      modifies this`view, this`selectedProjectId
      ensures SelectionResolves()
      ensures old(SelectionResolves()) ==> view == old(view) && selectedProjectId == old(selectedProjectId)
      ensures !old(SelectionResolves()) ==> view == DashboardView && selectedProjectId == None
    {
      if view == ProjectDetailsView && Selected(selectedProjectId) && FindProject(projects, selectedProjectId.value).None? {
        view := DashboardView;
        selectedProjectId := None;
      }
    }

    /** Picking a project (sidebar, list or search): select it and show its details. */
    method SelectProject(id: string)
      modifies this`view, this`selectedProjectId
      ensures selectedProjectId == Some(id) && view == ProjectDetailsView
    {
      selectedProjectId := Some(id);
      view := ProjectDetailsView;
    }

    /** `handleSearchResultSelect`: a project result opens it, a member result opens team management. */
    method SelectSearchResult(kind: ResultKind, id: string)
      modifies this`view, this`selectedProjectId
      ensures kind == ProjectResult ==> selectedProjectId == Some(id) && view == ProjectDetailsView
      ensures kind == TeamResult ==> selectedProjectId == old(selectedProjectId) && view == TeamManagementView
    {
      if kind == ProjectResult {
        SelectProject(id);
      } else {
        view := TeamManagementView;
      }
    }

    /** The sidebar's navigation: switch view and clear the selection. */
    method Navigate(target: View)
      modifies this`view, this`selectedProjectId
      ensures view == target && selectedProjectId == None
    {
      view := target;
      selectedProjectId := None;
    }

    /**
     * `handleLogin`: the signed-in user becomes current, and the roster is
     * reloaded from the stored team when there is one (a registration adds to it).
     */
    method Login(user: User, storedTeam: Option<seq<TeamMember>>)
      modifies this`currentUser, this`teamMembers
      ensures currentUser == Some(user)
      ensures teamMembers == if storedTeam.Some? then storedTeam.value else old(teamMembers)
    {
      currentUser := Some(user);
      if storedTeam.Some? {
        teamMembers := storedTeam.value;
      }
    }

    /**
     * The authentication effect run on mount: the session's user, when there is
     * one (`AuthService.Auth.CurrentUser`), becomes current; otherwise nothing
     * changes.
     */
    method RestoreSession(session: Option<User>)
      modifies this`currentUser
      ensures currentUser == if session.Some? then session else old(currentUser)
    {
      if session.Some? {
        currentUser := session;
      }
    }

    /** `handleLogout` after the session is cleared: no current user, back to the dashboard. */
    method Logout()
      modifies this`currentUser, this`view
      ensures currentUser == None && view == DashboardView
    {
      currentUser := None;
      view := DashboardView;
    }
  }

  /** The seed roster used when no team was saved. */
  function InitialTeam(): (team: seq<TeamMember>)
    ensures |team| == 4
  {
    [ TeamMember("u1", "Alice Chen", "Frontend Lead", ["React", "TypeScript", "Tailwind"], AvatarFor("Alice")),
      TeamMember("u2", "Bob Smith", "Backend Engineer", ["Node.js", "PostgreSQL", "Redis"], AvatarFor("Bob")),
      TeamMember("u3", "Charlie Kim", "UI/UX Designer", ["Figma", "CSS", "User Research"], AvatarFor("Charlie")),
      TeamMember("u4", "Diana Prince", "Product Manager", ["Agile", "Strategy", "Roadmapping"], AvatarFor("Diana")) ]
  }
}
