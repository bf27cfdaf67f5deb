/**
 * The team directory's member form (components/TeamManagement.tsx): opening
 * it empty or filled from a member, turning the filled form into the member
 * that is added or updated, and the delete confirmation.
 *
 * Skills are edited as one comma-separated text: a member's skills are shown
 * joined by ", " and read back by splitting on ',', trimming each piece and
 * dropping the empty ones.
 */
module TeamManagement {
  import opened Types
  import Text

  /** The four text fields of the form. */
  datatype MemberForm = MemberForm(name: string, role: string, skills: string, avatar: string)

  /** What submitting the form asks the application to do. */
  datatype MemberAction = NoAction | AddMember(member: TeamMember) | UpdateMember(member: TeamMember)

  /** The form of "Add Member": every field empty. */
  const EmptyForm := MemberForm("", "", "", "")

  /** A skill as the form can give it back: non-empty, without outer white space and without a comma. */
  predicate WellFormedSkill(skill: string)
  {
    skill != "" && Text.Trimmed(skill) && ',' !in skill
  }

  /** `parts.map(s => s.trim())`. */
  function TrimAll(parts: seq<string>): (r: seq<string>)
    ensures |r| == |parts|
    ensures forall i :: 0 <= i < |parts| ==> r[i] == Text.Trim(parts[i])
  {
    seq(|parts|, i requires 0 <= i < |parts| => Text.Trim(parts[i]))
  }

  /** `skills.split(',').map(s => s.trim()).filter(s => s)`. */
  function ParseSkills(text: string): (skills: seq<string>)
    ensures forall s :: s in skills ==> WellFormedSkill(s)
    ensures forall s :: s in skills <==> s != "" && exists p :: p in Text.Split(text, ',') && Text.Trim(p) == s
  {
    TrimmedPieces(Text.Split(text, ','));
    Text.DropEmpty(TrimAll(Text.Split(text, ',')))
  }

  /** The trimmed pieces are exactly the trims of the pieces, and a piece without a comma trims to one without. */
  lemma TrimmedPieces(parts: seq<string>)
    requires forall i :: 0 <= i < |parts| ==> ',' !in parts[i]
    ensures forall s :: s in TrimAll(parts) ==> ',' !in s && Text.Trimmed(s)
    ensures forall s :: s in TrimAll(parts) <==> exists p :: p in parts && Text.Trim(p) == s
  {
    var trimmed := TrimAll(parts);
    forall s | s in trimmed ensures ',' !in s && Text.Trimmed(s) && exists p :: p in parts && Text.Trim(p) == s {
      var i :| 0 <= i < |trimmed| && trimmed[i] == s;
      TrimmedPiece(parts[i]);
      assert parts[i] in parts;
    }
    forall s | exists p :: p in parts && Text.Trim(p) == s ensures s in trimmed {
      var p :| p in parts && Text.Trim(p) == s;
      TrimOfPieceKept(parts, p);
    }
  }

  /** The trim of every piece is among the trimmed pieces. */
  lemma TrimOfPieceKept(parts: seq<string>, p: string)
    requires p in parts
    ensures Text.Trim(p) in TrimAll(parts)
  {
    var i :| 0 <= i < |parts| && parts[i] == p;
    assert TrimAll(parts)[i] == Text.Trim(p);
  }

  /** Trimming a piece without a comma gives a trimmed text without a comma. */
  lemma TrimmedPiece(p: string)
    requires ',' !in p
    ensures ',' !in Text.Trim(p) && Text.Trimmed(Text.Trim(p))
  {
  }

  /** `skills.join(', ')`. */
  function JoinSkills(skills: seq<string>): string
  {
    Text.Join(skills, ", ")
  }

  /** `xs.map(x => ' ' + x)`: the pieces after the first once a ", " joined text is split on ','. */
  function Spaced(xs: seq<string>): (r: seq<string>)
    ensures |r| == |xs|
    ensures forall i :: 0 <= i < |xs| ==> r[i] == " " + xs[i]
  {
    seq(|xs|, i requires 0 <= i < |xs| => " " + xs[i])
  }

  /** Splitting `pre` followed by the ", " joined list on ',' gives back the pieces, each but the first led by its space. */
  lemma {:induction false} SplitJoined(pre: string, xs: seq<string>)
    requires |xs| >= 1
    requires ',' !in pre
    requires forall i :: 0 <= i < |xs| ==> ',' !in xs[i]
    ensures Text.Split(pre + Text.Join(xs, ", "), ',') == [pre + xs[0]] + Spaced(xs[1..])
    decreases |xs|
  {
    if |xs| == 1 {
      assert Spaced(xs[1..]) == [];
    } else {
      var rest := Text.Join(xs[1..], ", ");
      assert pre + Text.Join(xs, ", ") == (pre + xs[0]) + [','] + (" " + rest);
      Text.SplitAtFirst(pre + xs[0], ',', " " + rest);
      SplitJoined(" ", xs[1..]);
      assert [" " + xs[1..][0]] + Spaced(xs[1..][1..]) == Spaced(xs[1..]);
    }
  }

  /**
   * Editing a member and saving without touching the skills field gives the
   * skills back unchanged, when each skill is non-empty, trimmed and free of
   * commas (the only skills the form itself can produce).
   */
  lemma SkillsRoundTrip(skills: seq<string>)
    requires forall i :: 0 <= i < |skills| ==> WellFormedSkill(skills[i])
    ensures ParseSkills(JoinSkills(skills)) == skills
  {
    if |skills| == 0 {
      assert Text.Split("", ',') == [""];
      assert TrimAll([""]) == [Text.Trim("")];
    } else {
      TrimSplitJoined(skills);
      Text.DropEmptyOfNonEmpty(skills);
    }
  }

  /** Trimming the pieces of the ", " joined skills gives the skills back. */
  lemma TrimSplitJoined(skills: seq<string>)
    requires |skills| > 0
    requires forall i :: 0 <= i < |skills| ==> WellFormedSkill(skills[i])
    ensures TrimAll(Text.Split(JoinSkills(skills), ',')) == skills
  {
    var joined := Text.Join(skills, ", ");
    assert "" + joined == joined && JoinSkills(skills) == joined;
    assert "" + skills[0] == skills[0];
    SplitJoined("", skills);
    TrimPieces(skills);
  }

  /** Trimming the first skill and the space-led others gives the skills. */
  lemma TrimPieces(skills: seq<string>)
    requires |skills| > 0
    requires forall i :: 0 <= i < |skills| ==> WellFormedSkill(skills[i])
    ensures TrimAll([skills[0]] + Spaced(skills[1..])) == skills
  {
    var parts := [skills[0]] + Spaced(skills[1..]);
    forall i | 0 <= i < |parts|
      ensures Text.Trim(parts[i]) == skills[i]
    {
      if i == 0 {
        Text.TrimOfTrimmed(skills[0]);
      } else {
        assert parts[i] == " " + skills[i];
        Text.TrimAfterSpace(skills[i]);
      }
    }
  }

  /** Skills the form produces are fixed by another round of joining and parsing. */
  lemma ParsedSkillsStable(text: string)
    ensures ParseSkills(JoinSkills(ParseSkills(text))) == ParseSkills(text)
  {
    var skills := ParseSkills(text);
    assert forall i :: 0 <= i < |skills| ==> skills[i] in skills;
    SkillsRoundTrip(skills);
  }

  /** The form "Edit" opens on a member. */
  function FormFor(m: TeamMember): (f: MemberForm)
    ensures f.name == m.name && f.role == m.role && f.avatar == m.avatar
    ensures f.skills == JoinSkills(m.skills)
  {
    MemberForm(m.name, m.role, JoinSkills(m.skills), m.avatar)
  }

  /** `editingId` as a condition: null and "" are both falsy. */
  predicate Editing(editingId: Option<string>)
  {
    editingId.Some? && editingId.value != ""
  }

  /**
   * `handleSubmit`: nothing without a name and a role; otherwise the member
   * built from the form, with the parsed skills, the typed avatar or the
   * default one for the name, and the edited id or a fresh one, to be
   * updated when an id is being edited and added otherwise.
   */
  function Submission(form: MemberForm, editingId: Option<string>, freshId: string): (a: MemberAction)
    ensures a.NoAction? <==> form.name == "" || form.role == ""
    ensures a.UpdateMember? <==> !a.NoAction? && Editing(editingId)
    ensures !a.NoAction? ==>
      && a.member.name == form.name && a.member.role == form.role
      && a.member.skills == ParseSkills(form.skills)
      && a.member.avatar == (if form.avatar != "" then form.avatar else AvatarFor(form.name))
      && a.member.id == (if Editing(editingId) then editingId.value else freshId)
  {
    if form.name == "" || form.role == "" then NoAction
    else
      var member := TeamMember(
        if Editing(editingId) then editingId.value else freshId,
        form.name, form.role, ParseSkills(form.skills),
        if form.avatar != "" then form.avatar else AvatarFor(form.name));
      if Editing(editingId) then UpdateMember(member) else AddMember(member)
  }

  /**
   * Opening a member for editing and saving at once updates that same member,
   * unchanged, whenever it has a name, a role, an avatar and an id and its
   * skills are ones the form can produce.
   */
  lemma EditUnchangedUpdatesSameMember(m: TeamMember, freshId: string)
    requires m.name != "" && m.role != "" && m.avatar != "" && m.id != ""
    requires forall i :: 0 <= i < |m.skills| ==> WellFormedSkill(m.skills[i])
    ensures Submission(FormFor(m), Some(m.id), freshId) == UpdateMember(m)
  {
    SkillsRoundTrip(m.skills);
  }

  /** A submitted member carries no empty skill and never an empty avatar. */
  lemma SubmittedMemberWellFormed(form: MemberForm, editingId: Option<string>, freshId: string)
    requires !Submission(form, editingId, freshId).NoAction?
    ensures var m := Submission(form, editingId, freshId).member;
      && m.avatar != ""
      && forall i :: 0 <= i < |m.skills| ==> WellFormedSkill(m.skills[i])
  {
    ParsedSkillsWellFormed(form.skills);
  }

  /** Every parsed skill, by position, is well formed. */
  lemma ParsedSkillsWellFormed(text: string)
    ensures forall i :: 0 <= i < |ParseSkills(text)| ==> WellFormedSkill(ParseSkills(text)[i])
  {
    var skills := ParseSkills(text);
    assert forall i :: 0 <= i < |skills| ==> skills[i] in skills;
  }

  /** The state of the team directory view. */
  class TeamView {
    var modalOpen: bool
    var editingId: Option<string>
    var form: MemberForm
    var memberToDelete: Option<TeamMember>

    constructor ()
      ensures !modalOpen && editingId == None && form == EmptyForm && memberToDelete == None
    {
      modalOpen := false;
      editingId := None;
      form := EmptyForm;
      memberToDelete := None;
    }

    /** `openAddModal`: no id is edited and the form is empty. */
    method OpenAddModal()
      modifies this`modalOpen, this`editingId, this`form
      ensures modalOpen && editingId == None && form == EmptyForm
    {
      editingId := None;
      form := EmptyForm;
      modalOpen := true;
    }

    /** `openEditModal`: the member's id is edited and the form shows the member. */
    method OpenEditModal(m: TeamMember)
      modifies this`modalOpen, this`editingId, this`form
      ensures modalOpen && editingId == Some(m.id) && form == FormFor(m)
    {
      editingId := Some(m.id);
      form := MemberForm(m.name, m.role, JoinSkills(m.skills), m.avatar);
      modalOpen := true;
    }

    /** `handleSubmit`: the action for the application; the modal closes unless nothing was submitted. */
    method Submit(freshId: string) returns (action: MemberAction)
      modifies this`modalOpen
      ensures action == Submission(form, editingId, freshId)
      ensures modalOpen == (old(modalOpen) && action.NoAction?)
    {
      action := Submission(form, editingId, freshId);
      if !action.NoAction? {
        modalOpen := false;
      }
    }

    /** `handleDeleteClick`: the member awaits confirmation. */
    method RequestDelete(m: TeamMember)
      modifies this`memberToDelete
      ensures memberToDelete == Some(m)
    {
      memberToDelete := Some(m);
    }

    /** `confirmDelete`: the id to delete, if a member awaited confirmation; nothing awaits afterwards. */
    method ConfirmDelete() returns (deleted: Option<string>)
      modifies this`memberToDelete
      ensures old(memberToDelete).None? ==> deleted == None
      ensures old(memberToDelete).Some? ==> deleted == Some(old(memberToDelete).value.id)
      ensures memberToDelete == None
    {
      deleted := None;
      if memberToDelete.Some? {
        deleted := Some(memberToDelete.value.id);
        memberToDelete := None;
      }
    }
  }
}
