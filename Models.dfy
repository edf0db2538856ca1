/**
 * The display strings (`__str__`) of the backend records and the value ranges
 * their fields declare. Python strings are sequences of code points, the same
 * as Dafny's `string`; the text of a UUID (`str(u_id)`) is given as a parameter.
 */
module Models {
  import opened Wrappers
  import opened Text

  /** `s or fallback` */
  function Or(s: Option<string>, fallback: string): (r: string)
    ensures Truthy(s) ==> r == s.value
    ensures !Truthy(s) ==> r == fallback
  {
    if Truthy(s) then s.value else fallback
  }

  /** `str(id)` of an auto-increment key, which is `None` on an unsaved record. */
  function IdStr(id: Option<nat>): (r: string)
    ensures id.None? ==> r == "None"
    ensures id.Some? ==> r != [] && (forall i :: 0 <= i < |r| ==> IsDigit(r[i])) && ParseDecimal(r) == id.value
    ensures id.Some? && |r| > 1 ==> r[0] != '0'
  {
    match id
    case None => "None"
    case Some(n) => ParseNatToString(n); NatToString(n)
  }

  /* ------------------------------- Document ------------------------------- */

  /** The stored file: its `name` attribute, or a file whose attribute access raises. */
  datatype StoredFile = StoredFile(name: Option<string>) | FailingFile

  /**
   * `Document.__str__`: the file's basename when it has a non-empty name, else `str(id)`.
   * POSIX `os.path.basename` is the text after the last `/`.
   */
  function DocumentStr(document: StoredFile, id: Option<nat>): (r: string)
    ensures document.StoredFile? && Truthy(document.name) ==> r == LastSegment(document.name.value, '/')
    ensures !(document.StoredFile? && Truthy(document.name)) ==> r == IdStr(id)
  {
    match document
    case FailingFile => IdStr(id)
    case StoredFile(name) => if Truthy(name) then LastSegment(name.value, '/') else IdStr(id)
  }

  /** The basename is the last path component: directory part followed by it gives the name back. */
  lemma DocumentStrIsLastComponent(name: string, id: Option<nat>)
    requires name != ""
    ensures var r := DocumentStr(StoredFile(Some(name)), id);
            '/' !in r && exists dir :: name == dir + r && (dir == [] || dir[|dir| - 1] == '/')
  {
    var r := LastSegment(name, '/');
    var dir := name[..|name| - |r|];
    assert name == dir + r;
  }

  /** The basename is the last token of the name split on `/`; a name ending in `/` gives `""`. */
  lemma DocumentStrLastToken(name: string, id: Option<nat>)
    requires name != ""
    ensures DocumentStr(StoredFile(Some(name)), id) == Split(name, '/')[|Split(name, '/')| - 1]
    ensures name[|name| - 1] == '/' ==> DocumentStr(StoredFile(Some(name)), id) == ""
  {
    SplitLast(name, '/');
  }

  /* --------------------------------- Job --------------------------------- */

  const JobTitleLimit := 80

  /** `Job.__str__`: a title over 80 characters is cut to 80 and marked with `...`. */
  function JobStr(job_title: Option<string>, u_id: string): (r: string)
    ensures var t := Or(job_title, "");
            |t| > JobTitleLimit ==> |r| == JobTitleLimit + 3 && r == t[..JobTitleLimit] + "..."
    ensures var t := Or(job_title, "");
            0 < |t| <= JobTitleLimit ==> r == t
    ensures !Truthy(job_title) ==> r == u_id
  {
    if |Or(job_title, "")| > JobTitleLimit then job_title.value[..JobTitleLimit] + "..."
    else Or(job_title, u_id)
  }

  /** The display of a non-empty title always starts with the title, or with its first 80 characters. */
  lemma JobStrKeepsTitle(title: string, u_id: string)
    requires title != ""
    ensures var r := JobStr(Some(title), u_id);
            var keep := if |title| <= JobTitleLimit then |title| else JobTitleLimit;
            keep <= |r| && r[..keep] == title[..keep] && |r| <= JobTitleLimit + 3
  {
  }

  /**
   * A title is shown unchanged iff it fits in 80 characters, or it is 83 long and
   * already ends in `...`, which the cut reproduces.
   */
  lemma JobStrUnchangedIff(title: string, u_id: string)
    requires title != ""
    ensures JobStr(Some(title), u_id) == title
            <==> |title| <= JobTitleLimit || (|title| == JobTitleLimit + 3 && title[JobTitleLimit..] == "...")
  {
    if |title| > JobTitleLimit {
      var r := JobStr(Some(title), u_id);
      assert r[..JobTitleLimit] == title[..JobTitleLimit] && r[JobTitleLimit..] == "...";
      if |title| == JobTitleLimit + 3 && title[JobTitleLimit..] == "..." {
        assert title == title[..JobTitleLimit] + title[JobTitleLimit..];
      }
    }
  }

  /* ------------------------- Applicant, Project, ... ------------------------- */

  /** `Applicant.__str__`: `name or str(u_id)`. */
  function ApplicantStr(name: Option<string>, u_id: string): (r: string)
    ensures Truthy(name) ==> r == name.value
    ensures !Truthy(name) ==> r == u_id
    ensures r == "" <==> !Truthy(name) && u_id == ""
  {
    Or(name, u_id)
  }

  /** `Project.__str__`: `title or f"Project {u_id}"`. */
  function ProjectStr(title: Option<string>, u_id: string): (r: string)
    ensures Truthy(title) ==> r == title.value
    ensures !Truthy(title) ==> |r| == 8 + |u_id| && r[..8] == "Project " && r[8..] == u_id
  {
    Or(title, "Project " + u_id)
  }

  /** `College.__str__`: `f"{name or 'College'} - {degree or ''}"`. */
  function CollegeStr(name: Option<string>, degree: Option<string>): (r: string)
    ensures var n, d := Or(name, "College"), Or(degree, "");
            |r| == |n| + 3 + |d| && r[..|n|] == n && r[|n|..|n| + 3] == " - " && r[|n| + 3..] == d
  {
    Or(name, "College") + " - " + Or(degree, "")
  }

  /** `ProfessionalExperience.__str__`: `f"{role or 'Experience'} @ {organization or ''}"`. */
  function ExperienceStr(role: Option<string>, organization: Option<string>): (r: string)
    ensures var n, o := Or(role, "Experience"), Or(organization, "");
            |r| == |n| + 3 + |o| && r[..|n|] == n && r[|n|..|n| + 3] == " @ " && r[|n| + 3..] == o
  {
    Or(role, "Experience") + " @ " + Or(organization, "")
  }

  /** The college template splits back: a name without `-` is the text before the first `-`, plus the space. */
  lemma CollegeStrSplitBack(name: Option<string>, degree: Option<string>)
    requires '-' !in Or(name, "College")
    ensures Split(CollegeStr(name, degree), '-')[0] == Or(name, "College") + " "
  {
    var n := Or(name, "College");
    var rest := " " + Or(degree, "");
    assert CollegeStr(name, degree) == (n + " ") + ['-'] + rest;
    SplitAfterWord(n + " ", rest, '-');
  }

  /** The experience template splits back the same way at its `@`. */
  lemma ExperienceStrSplitBack(role: Option<string>, organization: Option<string>)
    requires '@' !in Or(role, "Experience")
    ensures Split(ExperienceStr(role, organization), '@')[0] == Or(role, "Experience") + " "
  {
    var n := Or(role, "Experience");
    var rest := " " + Or(organization, "");
    assert ExperienceStr(role, organization) == (n + " ") + ['@'] + rest;
    SplitAfterWord(n + " ", rest, '@');
  }

  /* -------------------------------- Ranges -------------------------------- */

  /** The three integer relevance fields. */
  datatype RelevanceField = ApplicantRelevance | ProjectRelevance | ExperienceRelevance

  const RelevanceDefault := 0
  const RelevanceMin := 0

  function RelevanceMax(field: RelevanceField): int {
    match field
    case ApplicantRelevance => 100
    case ProjectRelevance => 5
    case ExperienceRelevance => 10
  }

  /** The `MinValueValidator(0)` / `MaxValueValidator(max)` pair of a relevance field. */
  predicate RelevanceValid(field: RelevanceField, value: int) {
    RelevanceMin <= value <= RelevanceMax(field)
  }

  /** The declared ranges: applicant 0..100, project 0..5, experience 0..10, bounds included. */
  lemma RelevanceRanges(value: int)
    ensures RelevanceValid(ApplicantRelevance, value) <==> 0 <= value <= 100
    ensures RelevanceValid(ProjectRelevance, value) <==> 0 <= value <= 5
    ensures RelevanceValid(ExperienceRelevance, value) <==> 0 <= value <= 10
  {
  }

  /** The default relevance 0 lies in every range. */
  lemma RelevanceDefaultValid(field: RelevanceField)
    ensures RelevanceValid(field, RelevanceDefault)
  {
  }

  const CollegeDateMaxLength := 7

  /** `CharField(max_length=7, blank=True, null=True)` of a college start or end date. */
  predicate CollegeDateValid(date: Option<string>) {
    date.None? || |date.value| <= CollegeDateMaxLength
  }

  /** A missing date, an empty date and a `YYYY-MM` date are all accepted; eight characters are not. */
  lemma CollegeDateExamples(year: string, month: string, longer: string)
    requires |year| == 4 && |month| == 2 && |longer| == 8
    ensures CollegeDateValid(None) && CollegeDateValid(Some(""))
    ensures CollegeDateValid(Some(year + "-" + month))
    ensures !CollegeDateValid(Some(longer))
  {
  }
}
