/**
 * The global search box (components/SearchBar.tsx): case-insensitive matching
 * of projects on name or description and of members on name or role, at most
 * three results of each kind, and the selection of a shown result.
 */
module SearchBar {
  import opened Types
  import Text
  import App

  /** `text.toLowerCase().includes(query.toLowerCase())`. */
  predicate Mentions(text: string, query: string)
  {
    Text.Contains(Text.Lower(text), Text.Lower(query))
  }

  predicate ProjectMatches(p: Project, query: string)
  {
    Mentions(p.name, query) || Mentions(p.description, query)
  }

  predicate MemberMatches(m: TeamMember, query: string)
  {
    Mentions(m.name, query) || Mentions(m.role, query)
  }

  /** `projects.filter(...)`: the matching projects in their order. */
  function MatchingProjects(projects: seq<Project>, query: string): (r: seq<Project>)
    ensures forall p :: p in r <==> p in projects && ProjectMatches(p, query)
    ensures |r| <= |projects|
  {
    if |projects| == 0 then []
    else (if ProjectMatches(projects[0], query) then [projects[0]] else []) + MatchingProjects(projects[1..], query)
  }

  /** `team.filter(...)`: the matching members in their order. */
  function MatchingMembers(team: seq<TeamMember>, query: string): (r: seq<TeamMember>)
    ensures forall m :: m in r <==> m in team && MemberMatches(m, query)
    ensures |r| <= |team|
  {
    if |team| == 0 then []
    else (if MemberMatches(team[0], query) then [team[0]] else []) + MatchingMembers(team[1..], query)
  }

  /** `filter` keeps the order: the matches in two lists in turn are the matches in the whole. */
  lemma {:induction false} MatchingProjectsAppend(a: seq<Project>, b: seq<Project>, query: string)
    ensures MatchingProjects(a + b, query) == MatchingProjects(a, query) + MatchingProjects(b, query)
  {
    if |a| == 0 {
      assert a + b == b;
    } else {
      assert (a + b)[1..] == a[1..] + b;
      MatchingProjectsAppend(a[1..], b, query);
    }
  }

  /** `filter` keeps the order: the matches in two rosters in turn are the matches in the whole. */
  lemma {:induction false} MatchingMembersAppend(a: seq<TeamMember>, b: seq<TeamMember>, query: string)
    ensures MatchingMembers(a + b, query) == MatchingMembers(a, query) + MatchingMembers(b, query)
  {
    if |a| == 0 {
      assert a + b == b;
    } else {
      assert (a + b)[1..] == a[1..] + b;
      MatchingMembersAppend(a[1..], b, query);
    }
  }

  /** The most results of each kind the list shows. */
  const Shown := 3

  /** `xs.slice(0, 3)`. */
  function FirstShown<T>(xs: seq<T>): (r: seq<T>)
    ensures |r| == if |xs| < Shown then |xs| else Shown
    ensures r == xs[..|r|]
  {
    if |xs| < Shown then xs else xs[..Shown]
  }

  /** `filteredProjects`: nothing for an empty query, else the first three matching projects. */
  function FilteredProjects(projects: seq<Project>, query: string): (r: seq<Project>)
    ensures query == "" ==> r == []
    ensures |r| <= Shown
    ensures forall p :: p in r ==> p in projects && ProjectMatches(p, query)
    ensures query != "" ==>
      var matching := MatchingProjects(projects, query);
      && |r| == (if |matching| < Shown then |matching| else Shown)
      && r == matching[..|r|]
  {
    if query == "" then [] else FirstShown(MatchingProjects(projects, query))
  }

  /** `filteredTeam`: nothing for an empty query, else the first three matching members. */
  function FilteredTeam(team: seq<TeamMember>, query: string): (r: seq<TeamMember>)
    ensures query == "" ==> r == []
    ensures |r| <= Shown
    ensures forall m :: m in r ==> m in team && MemberMatches(m, query)
    ensures query != "" ==>
      var matching := MatchingMembers(team, query);
      && |r| == (if |matching| < Shown then |matching| else Shown)
      && r == matching[..|r|]
  {
    if query == "" then [] else FirstShown(MatchingMembers(team, query))
  }

  /** `hasResults`. */
  predicate HasResults(projects: seq<Project>, team: seq<TeamMember>, query: string)
  {
    |FilteredProjects(projects, query)| > 0 || |FilteredTeam(team, query)| > 0
  }

  /** There are results exactly when the query is not empty and some project or member matches it. */
  lemma HasResultsIff(projects: seq<Project>, team: seq<TeamMember>, query: string)
    ensures HasResults(projects, team, query) <==>
      query != "" && ((exists p :: p in projects && ProjectMatches(p, query)) || (exists m :: m in team && MemberMatches(m, query)))
  {
    if query != "" {
      var ps := MatchingProjects(projects, query);
      var ms := MatchingMembers(team, query);
      if |ps| > 0 { assert ps[0] in ps; }
      if |ms| > 0 { assert ms[0] in ms; }
    }
  }

  /** With at most three matches, every matching project is shown. */
  lemma FewMatchesAllShown(projects: seq<Project>, query: string)
    requires query != "" && |MatchingProjects(projects, query)| <= Shown
    ensures forall p :: p in FilteredProjects(projects, query) <==> p in projects && ProjectMatches(p, query)
  {
  }

  /** A project is found by its name, whatever the case of the query. */
  lemma {:induction false} NameFindsProject(projects: seq<Project>, k: nat)
    requires k < |projects| && projects[k].name != ""
    ensures projects[k] in MatchingProjects(projects, Text.Upper(projects[k].name))
    ensures projects[k] in MatchingProjects(projects, Text.Lower(projects[k].name))
  {
    var name := projects[k].name;
    LowerOfUpper(name);
    LowerOfLower(name);
    assert Text.StartsWith(Text.Lower(name)[0..], Text.Lower(name));
  }

  /** Lower-casing forgets upper-casing. */
  lemma LowerOfUpper(s: string)
    ensures Text.Lower(Text.Upper(s)) == Text.Lower(s)
  {
    forall i | 0 <= i < |s|
      ensures Text.LowerChar(Text.UpperChar(s[i])) == Text.LowerChar(s[i])
    {
    }
  }

  /** Lower-casing is idempotent. */
  lemma LowerOfLower(s: string)
    ensures Text.Lower(Text.Lower(s)) == Text.Lower(s)
  {
    forall i | 0 <= i < |s|
      ensures Text.LowerChar(Text.LowerChar(s[i])) == Text.LowerChar(s[i])
    {
    }
  }

  /** The text box and whether its result list is open. */
  class SearchBox {
    var query: string
    var isOpen: bool

    constructor ()
      ensures query == "" && !isOpen
    {
      query := "";
      isOpen := false;
    }

    /** The result list is drawn while it is open and the query is not empty. */
    predicate ListShown()
      reads this
    {
      isOpen && query != ""
    }

    /** Typing: the query is the new text and the list opens. */
    method Type(text: string)
      modifies this
      ensures query == text && isOpen
    {
      query := text;
      isOpen := true;
    }

    /** Focusing the box opens the list. */
    method Focus()
      modifies this`isOpen
      ensures isOpen
    {
      isOpen := true;
    }

    /** A click outside the box closes the list. */
    method ClickOutside()
      modifies this`isOpen
      ensures !isOpen
    {
      isOpen := false;
    }

    /** Clicking the `k`-th shown project: reports it, closes the list and clears the query. */
    method SelectProject(projects: seq<Project>, k: nat) returns (kind: App.ResultKind, id: string)
      requires ListShown() && k < |FilteredProjects(projects, query)|
      modifies this
      ensures kind == App.ProjectResult && id == FilteredProjects(projects, old(query))[k].id
      ensures exists p :: p in projects && p.id == id && ProjectMatches(p, old(query))
      ensures query == "" && !isOpen
    {
      var p := FilteredProjects(projects, query)[k];
      assert p in FilteredProjects(projects, query);
      kind, id := App.ProjectResult, p.id;
      isOpen := false;
      query := "";
    }

    /** Clicking the `k`-th shown member: reports it, closes the list and clears the query. */
    method SelectMember(team: seq<TeamMember>, k: nat) returns (kind: App.ResultKind, id: string)
      requires ListShown() && k < |FilteredTeam(team, query)|
      modifies this
      ensures kind == App.TeamResult && id == FilteredTeam(team, old(query))[k].id
      ensures exists m :: m in team && m.id == id && MemberMatches(m, old(query))
      ensures query == "" && !isOpen
    {
      var m := FilteredTeam(team, query)[k];
      assert m in FilteredTeam(team, query);
      kind, id := App.TeamResult, m.id;
      isOpen := false;
      query := "";
    }
  }
}
