/**
 * The dashboard aggregates (components/Dashboard.tsx): the headline figures,
 * the task counts per status for the distribution chart, and the short
 * project names of the health chart.
 */
module Dashboard {
  import opened Types
  import ProjectDetails
  import App

  /** The headline figures. */
  datatype Stats = Stats(
    totalProjects: nat,
    activeProjects: nat,
    totalTasks: nat,
    completedTasks: nat,
    overallProgress: int,
    totalBudget: int)

  /** Every task of every project, project by project. */
  function AllTasks(projects: seq<Project>): (tasks: seq<Task>)
  {
    if |projects| == 0 then []
    else AllTasks(projects[..|projects| - 1]) + projects[|projects| - 1].tasks
  }

  /** `projects.reduce((acc, p) => acc + p.tasks.length, 0)`. */
  function TotalTasks(projects: seq<Project>): nat
  {
    if |projects| == 0 then 0
    else TotalTasks(projects[..|projects| - 1]) + |projects[|projects| - 1].tasks|
  }

  /** The completed tasks summed over the projects. */
  function CompletedTasks(projects: seq<Project>): nat
  {
    if |projects| == 0 then 0
    else CompletedTasks(projects[..|projects| - 1]) + ProjectDetails.CompletedCount(projects[|projects| - 1].tasks)
  }

  /** `projects.reduce((acc, p) => acc + p.budget, 0)`. */
  function TotalBudget(projects: seq<Project>): int
  {
    if |projects| == 0 then 0
    else TotalBudget(projects[..|projects| - 1]) + projects[|projects| - 1].budget
  }

  lemma {:induction false} CompletedCountAppend(a: seq<Task>, b: seq<Task>)
    ensures ProjectDetails.CompletedCount(a + b) == ProjectDetails.CompletedCount(a) + ProjectDetails.CompletedCount(b)
  {
    if |a| > 0 {
      assert (a + b)[1..] == a[1..] + b;
      CompletedCountAppend(a[1..], b);
    } else {
      assert a + b == b;
    }
  }

  /** The summed counts are the counts over the flattened task list. */
  lemma {:induction false} TotalsOverAllTasks(projects: seq<Project>)
    ensures TotalTasks(projects) == |AllTasks(projects)|
    ensures CompletedTasks(projects) == ProjectDetails.CompletedCount(AllTasks(projects))
  {
    if |projects| > 0 {
      var init := projects[..|projects| - 1];
      TotalsOverAllTasks(init);
      CompletedCountAppend(AllTasks(init), projects[|projects| - 1].tasks);
    }
  }

  /** The `stats` memo. */
  function ComputeStats(projects: seq<Project>): (s: Stats)
    ensures s.totalProjects == |projects| && s.totalBudget == TotalBudget(projects)
    ensures s.activeProjects == |App.ActiveProjects(projects)|
    ensures s.totalTasks == TotalTasks(projects) && s.completedTasks == CompletedTasks(projects)
  {
    var totalTasks := TotalTasks(projects);
    var completedTasks := CompletedTasks(projects);
    TotalsOverAllTasks(projects);
    Stats(
      |projects|,
      |App.ActiveProjects(projects)|,
      totalTasks,
      completedTasks,
      if totalTasks == 0 then 0 else ProjectDetails.RoundedPercent(completedTasks, totalTasks),
      TotalBudget(projects))
  }

  /**
   * The overall progress is the project progress rule applied to all tasks at
   * once: 0 without tasks (the case the dashboard guards), otherwise the rounded
   * percentage of completed tasks, always within 0..100.
   */
  lemma OverallProgressIsProgressOfAllTasks(projects: seq<Project>)
    ensures ComputeStats(projects).overallProgress == ProjectDetails.Progress(AllTasks(projects))
    ensures 0 <= ComputeStats(projects).overallProgress <= 100
    ensures ComputeStats(projects).completedTasks <= ComputeStats(projects).totalTasks
    ensures ComputeStats(projects).activeProjects <= ComputeStats(projects).totalProjects
  {
    TotalsOverAllTasks(projects);
    ActiveAtMostAll(projects);
  }

  lemma {:induction false} ActiveAtMostAll(projects: seq<Project>)
    ensures |App.ActiveProjects(projects)| <= |projects|
  {
    if |projects| > 0 {
      ActiveAtMostAll(projects[1..]);
    }
  }

  // ---------------------------------------------------------------------------
  // Task distribution
  // ---------------------------------------------------------------------------

  /** Number of tasks with the status. */
  function StatusCount(tasks: seq<Task>, s: TaskStatus): nat
  {
    if |tasks| == 0 then 0
    else StatusCount(tasks[..|tasks| - 1], s) + (if tasks[|tasks| - 1].status == s then 1 else 0)
  }

  /** Number of tasks with the status over all projects. */
  function CountIn(projects: seq<Project>, s: TaskStatus): nat
  {
    if |projects| == 0 then 0
    else CountIn(projects[..|projects| - 1], s) + StatusCount(projects[|projects| - 1].tasks, s)
  }

  /** One slice of the distribution chart. */
  datatype Slice = Slice(name: string, value: nat)

  /** The four slices in chart order, before the zero ones are dropped. */
  function AllSlices(projects: seq<Project>): seq<Slice>
  {
    [ Slice("Pending", CountIn(projects, Pending)),
      Slice("In Progress", CountIn(projects, InProgress)),
      Slice("Completed", CountIn(projects, Completed)),
      Slice("Blocked", CountIn(projects, Blocked)) ]
  }

  /** `.filter(item => item.value > 0)`. */
  function KeepPositive(slices: seq<Slice>): (r: seq<Slice>)
    ensures forall x :: x in r <==> x in slices && x.value > 0
    ensures |r| <= |slices|
  {
    if |slices| == 0 then []
    else (if slices[0].value > 0 then [slices[0]] else []) + KeepPositive(slices[1..])
  }

  /** `filter` keeps the order: the positive slices of two lists in turn are those of the whole. */
  lemma {:induction false} KeepPositiveAppend(a: seq<Slice>, b: seq<Slice>)
    ensures KeepPositive(a + b) == KeepPositive(a) + KeepPositive(b)
  {
    if |a| == 0 {
      assert a + b == b;
    } else {
      assert (a + b)[1..] == a[1..] + b;
      KeepPositiveAppend(a[1..], b);
    }
  }

  /** The chart data: the non-zero counts of Pending, In Progress, Completed and Blocked, in that order. */
  function Distribution(projects: seq<Project>): seq<Slice>
  {
    KeepPositive(AllSlices(projects))
  }

  /** The place of a status name in the chart: Pending, In Progress, Completed, then Blocked. */
  function ChartRank(name: string): nat
  {
    if name == "Pending" then 0 else if name == "In Progress" then 1 else if name == "Completed" then 2 else 3
  }

  /** Slices whose status names come strictly in chart order. */
  predicate InChartOrder(slices: seq<Slice>)
  {
    forall i, j :: 0 <= i < j < |slices| ==> ChartRank(slices[i].name) < ChartRank(slices[j].name)
  }

  /** Dropping slices keeps the chart order of the rest. */
  lemma {:induction false} KeepPositiveInOrder(slices: seq<Slice>)
    requires InChartOrder(slices)
    ensures InChartOrder(KeepPositive(slices))
  {
    if |slices| > 0 {
      TailInOrder(slices);
      KeepPositiveInOrder(slices[1..]);
      if slices[0].value > 0 {
        HeadBelowKept(slices);
        PrependInOrder(slices[0], KeepPositive(slices[1..]));
      }
    }
  }

  /** The tail of a list in chart order is in chart order. */
  lemma TailInOrder(slices: seq<Slice>)
    requires |slices| > 0 && InChartOrder(slices)
    ensures InChartOrder(slices[1..])
  {
    forall i, j | 0 <= i < j < |slices[1..]|
      ensures ChartRank(slices[1..][i].name) < ChartRank(slices[1..][j].name)
    {
      assert slices[1..][i] == slices[i + 1] && slices[1..][j] == slices[j + 1];
    }
  }

  /** The first slice comes before every slice kept from the rest. */
  lemma HeadBelowKept(slices: seq<Slice>)
    requires |slices| > 0 && InChartOrder(slices)
    ensures forall y :: y in KeepPositive(slices[1..]) ==> ChartRank(slices[0].name) < ChartRank(y.name)
  {
    forall y | y in KeepPositive(slices[1..]) ensures ChartRank(slices[0].name) < ChartRank(y.name) {
      var k :| 0 <= k < |slices[1..]| && slices[1..][k] == y;
      assert slices[k + 1] == y;
    }
  }

  /** A slice before every slice of a list in chart order extends it in chart order. */
  lemma PrependInOrder(x: Slice, rest: seq<Slice>)
    requires InChartOrder(rest)
    requires forall y :: y in rest ==> ChartRank(x.name) < ChartRank(y.name)
    ensures InChartOrder([x] + rest)
  {
    forall i, j | 0 <= i < j < |[x] + rest|
      ensures ChartRank(([x] + rest)[i].name) < ChartRank(([x] + rest)[j].name)
    {
      if i == 0 {
        assert ([x] + rest)[j] == rest[j - 1];
        assert rest[j - 1] in rest;
      } else {
        assert ([x] + rest)[i] == rest[i - 1] && ([x] + rest)[j] == rest[j - 1];
      }
    }
  }

  /** The chart lists Pending, In Progress, Completed and Blocked in that order, each at most once. */
  lemma DistributionInChartOrder(projects: seq<Project>)
    ensures InChartOrder(Distribution(projects))
    ensures forall x :: x in Distribution(projects) ==> x.name in {"Pending", "In Progress", "Completed", "Blocked"}
  {
    var all := AllSlices(projects);
    assert ChartRank("Pending") == 0 && ChartRank("In Progress") == 1;
    assert ChartRank("Completed") == 2 && ChartRank("Blocked") == 3 by {
      assert "Blocked"[0] != "Pending"[0] && "Blocked"[0] != "In Progress"[0] && "Blocked"[0] != "Completed"[0];
      assert "Completed"[0] != "Pending"[0] && "Completed"[0] != "In Progress"[0];
    }
    assert InChartOrder(all);
    KeepPositiveInOrder(all);
  }

  /** The sum of the slice values. */
  function Total(slices: seq<Slice>): nat
  {
    if |slices| == 0 then 0 else slices[0].value + Total(slices[1..])
  }

  /** Every task has exactly one of the four statuses, so the four counts add up to the task count. */
  lemma {:induction false} StatusCountsPartition(tasks: seq<Task>)
    ensures StatusCount(tasks, Pending) + StatusCount(tasks, InProgress) + StatusCount(tasks, Completed)
      + StatusCount(tasks, Blocked) == |tasks|
  {
    if |tasks| > 0 {
      StatusCountsPartition(tasks[..|tasks| - 1]);
    }
  }

  lemma {:induction false} CountsPartition(projects: seq<Project>)
    ensures CountIn(projects, Pending) + CountIn(projects, InProgress) + CountIn(projects, Completed)
      + CountIn(projects, Blocked) == TotalTasks(projects)
  {
    if |projects| > 0 {
      CountsPartition(projects[..|projects| - 1]);
      StatusCountsPartition(projects[|projects| - 1].tasks);
    }
  }

  lemma {:induction false} KeepPositiveTotal(slices: seq<Slice>)
    ensures Total(KeepPositive(slices)) == Total(slices)
  {
    if |slices| > 0 {
      KeepPositiveTotal(slices[1..]);
      TotalAppend(if slices[0].value > 0 then [slices[0]] else [], KeepPositive(slices[1..]));
    }
  }

  lemma {:induction false} TotalAppend(a: seq<Slice>, b: seq<Slice>)
    ensures Total(a + b) == Total(a) + Total(b)
  {
    if |a| > 0 {
      assert (a + b)[1..] == a[1..] + b;
      TotalAppend(a[1..], b);
    } else {
      assert a + b == b;
    }
  }

  lemma TotalOfFour(a: Slice, b: Slice, c: Slice, d: Slice)
    ensures Total([a, b, c, d]) == a.value + b.value + c.value + d.value
  {
    assert [d][1..] == [];
    assert Total([d]) == d.value;
    assert [c, d][1..] == [d];
    assert Total([c, d]) == c.value + d.value;
    assert [b, c, d][1..] == [c, d];
    assert Total([b, c, d]) == b.value + c.value + d.value;
    assert [a, b, c, d][1..] == [b, c, d];
  }

  /** The chart's slices add up to the total task count. */
  lemma DistributionTotal(projects: seq<Project>)
    ensures Total(Distribution(projects)) == TotalTasks(projects)
  {
    var all := AllSlices(projects);
    CountsPartition(projects);
    KeepPositiveTotal(all);
    TotalOfFour(all[0], all[1], all[2], all[3]);
    assert all == [all[0], all[1], all[2], all[3]];
  }

  /** Each slice is positive, and a status has its slice exactly when some task has that status. */
  lemma DistributionSlices(projects: seq<Project>)
    ensures forall x :: x in Distribution(projects) ==> x.value > 0
    ensures forall k :: 0 <= k < 4 ==> (AllSlices(projects)[k] in Distribution(projects) <==> AllSlices(projects)[k].value > 0)
  {
    var all := AllSlices(projects);
    assert forall k :: 0 <= k < 4 ==> all[k] in all;
  }

  /**
   * `taskDistribution`: four counters incremented over every task of every
   * project, then the non-zero entries in the fixed order.
   */
  method TaskDistribution(projects: seq<Project>) returns (dist: seq<Slice>)
    ensures dist == Distribution(projects)
  {
    var pending, inProgress, completed, blocked := 0, 0, 0, 0;
    var i := 0;
    while i < |projects|
      invariant 0 <= i <= |projects|
      invariant pending == CountIn(projects[..i], Pending) && inProgress == CountIn(projects[..i], InProgress)
      invariant completed == CountIn(projects[..i], Completed) && blocked == CountIn(projects[..i], Blocked)
    {
      var tasks := projects[i].tasks;
      var j := 0;
      while j < |tasks|
        invariant 0 <= j <= |tasks|
        invariant pending == CountIn(projects[..i], Pending) + StatusCount(tasks[..j], Pending)
        invariant inProgress == CountIn(projects[..i], InProgress) + StatusCount(tasks[..j], InProgress)
        invariant completed == CountIn(projects[..i], Completed) + StatusCount(tasks[..j], Completed)
        invariant blocked == CountIn(projects[..i], Blocked) + StatusCount(tasks[..j], Blocked)
      {
        var t := tasks[j];
        if t.status == Pending {
          pending := pending + 1;
        } else if t.status == InProgress {
          inProgress := inProgress + 1;
        } else if t.status == Completed {
          completed := completed + 1;
        } else if t.status == Blocked {
          blocked := blocked + 1;
        }
        assert tasks[..j + 1][..j] == tasks[..j];
        j := j + 1;
      }
      assert tasks[..j] == tasks;
      assert projects[..i + 1][..i] == projects[..i];
      i := i + 1;
    }
    assert projects[..i] == projects;
    dist := KeepPositive([Slice("Pending", pending), Slice("In Progress", inProgress),
                          Slice("Completed", completed), Slice("Blocked", blocked)]);
  }

  // ---------------------------------------------------------------------------
  // Project health chart
  // ---------------------------------------------------------------------------

  /** The chart label: names over 10 characters become their first 10 followed by "...". */
  function ShortName(name: string): (r: string)
    ensures |r| <= 13
    ensures |name| <= 10 ==> r == name
    ensures |name| > 10 ==> |r| == 13 && r[..10] == name[..10] && r[10..] == "..."
  {
    if |name| > 10 then name[..10] + "..." else name
  }

  /** Shortening a label again changes nothing. */
  lemma ShortNameIdempotent(name: string)
    ensures ShortName(ShortName(name)) == ShortName(name)
  {
    if |name| > 10 {
      var r := ShortName(name);
      assert r[..10] == name[..10];
    }
  }

  /** A health-chart row. */
  datatype HealthRow = HealthRow(name: string, progress: int, tasks: nat)

  /** `projectHealthData`: one row per project, in order. */
  function HealthData(projects: seq<Project>): (rows: seq<HealthRow>)
    ensures |rows| == |projects|
    ensures forall i :: 0 <= i < |projects| ==>
      rows[i] == HealthRow(ShortName(projects[i].name), projects[i].progress, |projects[i].tasks|)
  {
    seq(|projects|, i requires 0 <= i < |projects| =>
      HealthRow(ShortName(projects[i].name), projects[i].progress, |projects[i].tasks|))
  }
}
