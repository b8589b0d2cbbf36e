/**
 * The questionnaire page's project creation: the random project id
 * (`generateProjectId`, four groups of four capital letters joined by `-`) and
 * the create-project form (`handleCreateProject`). Random draws are supplied as
 * letter indices; the database answer is a parameter.
 */
module Questionnaire {
  import opened Wrappers
  import opened Strings

  /** The letters a project id is drawn from. */
  const Alphabet: string := "ABCDEFGHIJKLMNOPQRSTUVWXYZ"

  /** The `n`-th letter of the alphabet is the `n`-th capital letter. */
  lemma AlphabetLetters()
    ensures forall n :: 0 <= n < 26 ==> Alphabet[n] as int == 'A' as int + n
  {
  }

  /** Sixteen draws of `Math.floor(Math.random() * 26)`, one per letter. */
  predicate Draws(rand: seq<int>) {
    |rand| == 16 && forall i :: 0 <= i < 16 ==> 0 <= rand[i] < 26
  }

  /** The documented form `XXXX-XXXX-XXXX-XXXX`: capital letters, with `-` at positions 4, 9 and 14. */
  predicate IsProjectId(s: string) {
    |s| == 19 && forall k :: 0 <= k < 19 ==> if k % 5 == 4 then s[k] == '-' else 'A' <= s[k] <= 'Z'
  }

  /**
   * The id the draws select, position by position: letter `j` of group `i` comes from
   * draw `4 * i + j`. It has the documented form.
   */
  function ProjectIdOf(rand: seq<int>): (id: string)
    requires Draws(rand)
    ensures IsProjectId(id)
  {
    AlphabetLetters();
    seq(19, k requires 0 <= k < 19 => if k % 5 == 4 then '-' else Alphabet[rand[4 * (k / 5) + k % 5]])
  }

  /** The draws that select a given id. */
  function DrawsOf(id: string): (rand: seq<int>)
    requires IsProjectId(id)
    ensures Draws(rand)
  {
    seq(16, t requires 0 <= t < 16 => id[5 * (t / 4) + t % 4] as int - 'A' as int)
  }

  /** Every id of the documented form can be generated: the generator misses none. */
  lemma EveryProjectIdReachable(id: string)
    requires IsProjectId(id)
    ensures ProjectIdOf(DrawsOf(id)) == id
  {
    var rand := DrawsOf(id);
    forall k | 0 <= k < 19 && k % 5 != 4 ensures Alphabet[rand[4 * (k / 5) + k % 5]] == id[k] {
      var t := 4 * (k / 5) + k % 5;
      assert 5 * (t / 4) + t % 4 == k;
      AlphabetLetters();
    }
  }

  /** Groups of four joined by `-`: every fifth character is the separator, the others come from the groups in order. */
  lemma {:induction false} JoinGroups(groups: seq<string>)
    requires |groups| >= 1 && forall a :: 0 <= a < |groups| ==> |groups[a]| == 4
    ensures |Join(groups, "-")| == 5 * |groups| - 1
    ensures forall k :: 0 <= k < 5 * |groups| - 1 ==>
              Join(groups, "-")[k] == if k % 5 == 4 then '-' else groups[k / 5][k % 5]
  {
    if |groups| > 1 {
      var rest := groups[1..];
      JoinGroups(rest);
      var j := Join(groups, "-");
      assert j == groups[0] + "-" + Join(rest, "-");
      forall k | 0 <= k < 5 * |groups| - 1
        ensures j[k] == if k % 5 == 4 then '-' else groups[k / 5][k % 5]
      {
        if k >= 5 {
          assert j[k] == Join(rest, "-")[k - 5];
          assert rest[(k - 5) / 5] == groups[k / 5];
        }
      }
    }
  }

  /** `generateProjectId()`, with the draws supplied. */
  method GenerateProjectId(rand: seq<int>) returns (id: string)
    requires Draws(rand)
    ensures id == ProjectIdOf(rand)
    ensures IsProjectId(id)
  {
    var segments: seq<string> := [];
    for i := 0 to 4
      invariant |segments| == i
      invariant forall a :: 0 <= a < i ==> |segments[a]| == 4
      invariant forall a, b :: 0 <= a < i && 0 <= b < 4 ==> segments[a][b] == Alphabet[rand[4 * a + b]]
    {
      var segment := "";
      for j := 0 to 4
        invariant |segment| == j
        invariant forall b :: 0 <= b < j ==> segment[b] == Alphabet[rand[4 * i + b]]
      {
        segment := segment + [Alphabet[rand[4 * i + j]]];
      }
      segments := segments + [segment];
    }
    id := Join(segments, "-");
    JoinGroups(segments);
  }

  // ---------------------------------------------------------------------------
  // The create-project form

  const RequiredMessage: string := "Project name and client name are required"
  const FallbackMessage: string := "Failed to create project"
  const DefaultContractor: string := "Senses Integration"

  /** The row inserted into `questionnaire_data`. */
  datatype ProjectRow = ProjectRow(projectId: string, projectName: string, clientName: string, contractor: string)

  /** What the insert threw: an `Error` carries its message; any other value does not. */
  datatype Thrown = ErrorValue(message: string) | OtherValue

  /** The database's answer to the insert. */
  datatype InsertAnswer = Inserted | InsertFailed(thrown: Thrown)

  /** The form is submittable exactly when both names have something besides whitespace. */
  predicate Submittable(projectName: string, clientName: string)
    ensures Submittable(projectName, clientName) <==> !AllWhitespace(projectName) && !AllWhitespace(clientName)
  {
    TrimEmptyIff(projectName);
    TrimEmptyIff(clientName);
    Trim(projectName) != "" && Trim(clientName) != ""
  }

  /** The create-project dialog's state. */
  class CreateProjectForm {
    var projectName: string
    var clientName: string
    var contractor: string
    var previewProjectId: string
    var dialogOpen: bool
    var loading: bool
    var error: Option<string>

    /** The preview id is empty or one the generator made. */
    ghost predicate Valid()
      reads this
    {
      previewProjectId == "" || IsProjectId(previewProjectId)
    }

    constructor ()
      ensures Valid()
      ensures projectName == "" && clientName == "" && contractor == DefaultContractor
      ensures previewProjectId == "" && !dialogOpen && !loading && error == None
    {
      projectName, clientName, contractor := "", "", DefaultContractor;
      previewProjectId, dialogOpen, loading, error := "", false, false, None;
    }

    /** The dialog opening or closing; opening it draws a fresh preview id. */
    method SetDialogOpen(open: bool, rand: seq<int>)
      requires Valid() && Draws(rand)
      modifies this
      ensures Valid() && dialogOpen == open
      ensures open && !old(dialogOpen) ==> previewProjectId == ProjectIdOf(rand)
      ensures !(open && !old(dialogOpen)) ==> previewProjectId == old(previewProjectId)
      ensures unchanged(this`projectName, this`clientName, this`contractor, this`loading, this`error)
    {
      if open && !dialogOpen {
        previewProjectId := GenerateProjectId(rand);
      }
      dialogOpen := open;
    }

    /**
     * `handleCreateProject`: validates the names, inserts the row (the database's answer
     * is `answer`), and on success resets the form and navigates to the new project.
     */
    method HandleCreateProject(rand: seq<int>, answer: InsertAnswer) returns (row: Option<ProjectRow>, navigation: Option<string>)
      requires Valid() && Draws(rand)
      modifies this
      ensures Valid()
      ensures !Submittable(old(projectName), old(clientName)) ==>
        && row == None && navigation == None && error == Some(RequiredMessage)
        && unchanged(this`projectName, this`clientName, this`contractor, this`previewProjectId, this`dialogOpen, this`loading)
      ensures Submittable(old(projectName), old(clientName)) ==>
        && row.Some?
        && row.value.projectName == Trim(old(projectName)) && row.value.clientName == Trim(old(clientName))
        && row.value.contractor == Trim(old(contractor))
        && row.value.projectId == (if old(previewProjectId) != "" then old(previewProjectId) else ProjectIdOf(rand))
        && IsProjectId(row.value.projectId)
        && !loading
      ensures Submittable(old(projectName), old(clientName)) && answer == Inserted ==>
        && navigation == Some("/questionnaire/" + row.value.projectId)
        && projectName == "" && clientName == "" && contractor == DefaultContractor
        && previewProjectId == "" && !dialogOpen && error == None
      ensures Submittable(old(projectName), old(clientName)) && answer.InsertFailed? ==>
        && navigation == None
        && unchanged(this`projectName, this`clientName, this`contractor, this`previewProjectId, this`dialogOpen)
      ensures Submittable(old(projectName), old(clientName)) && answer.InsertFailed? && answer.thrown.ErrorValue? ==>
        error == Some(answer.thrown.message)
      ensures Submittable(old(projectName), old(clientName)) && answer == InsertFailed(OtherValue) ==>
        error == Some(FallbackMessage)
    {
      var name, client := Trim(projectName), Trim(clientName);
      if name == "" || client == "" {
        error := Some(RequiredMessage);
        return None, None;
      }
      loading := true;
      error := None;
      var projectId := previewProjectId;
      if projectId == "" {
        projectId := GenerateProjectId(rand);
      }
      assert IsProjectId(projectId);
      row := Some(ProjectRow(projectId, name, client, Trim(contractor)));
      match answer {
        case Inserted =>
          projectName, clientName, contractor := "", "", DefaultContractor;
          previewProjectId, dialogOpen := "", false;
          navigation := Some("/questionnaire/" + projectId);
        case InsertFailed(ErrorValue(message)) =>
          error := Some(message);
          navigation := None;
        case InsertFailed(OtherValue) =>
          error := Some(FallbackMessage);
          navigation := None;
      }
      loading := false;
    }
  }
}
