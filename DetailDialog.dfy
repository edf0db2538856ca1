/**
 * The state of `ApplicantDetailDialog`. The four React state slots become the
 * fields of a class; the hooks become explicit transitions: `Toggle` (the
 * dialog's `onOpenChange`), `RunEffect` (the effect that calls `getDetails`
 * when its dependency pair changes), `ApplySuccess` (the `.then` callback) and
 * `ApplyFailure` (the `.catch` callback).
 */
module DetailDialog {
  import opened Wrappers
  import opened ApplicantDetails

  /** A summary field that is an array, or that is missing or of another type. */
  datatype ArrayField<T> = Array(items: seq<T>) | NotArray

  /** `Array.isArray(x) ? [...x] : []`: a copy of an array, and an empty list for anything else. */
  function ArrayOrEmpty<T>(field: ArrayField<T>): (items: seq<T>)
    ensures field.Array? ==> items == field.items
    ensures |items| > 0 ==> field.Array?
  {
    match field
    case Array(items) => items
    case NotArray => []
  }

  /** The body of a successful summary response. */
  datatype Summary = Summary(
    college: Option<College>,
    projects: ArrayField<Project>,
    professional_experiences: ArrayField<ProfessionalExperience>)

  /** `response.data`: an object, or `null`, on which reading `data.college` throws. */
  datatype ResponseBody = Body(data: Summary) | NullBody

  /**
   * The guard of `getDetails`: a summary request for the applicant is issued
   * only when the dialog is open and the applicant identifier is truthy.
   */
  function ShouldFetch(isOpen: bool, applicantId: Option<string>): (request: Option<string>)
    ensures request.Some? <==> isOpen && applicantId.Some? && applicantId.value != ""
    ensures request.Some? ==> request == applicantId
  {
    if isOpen && applicantId.Some? && applicantId.value != "" then applicantId else None
  }

  /** After a success, the Project tab shows content iff the payload's `projects` is a non-empty array. */
  lemma ProjectPaneAfterSuccess(field: ArrayField<Project>)
    ensures ProjectPane(ArrayOrEmpty(field)).Content? <==> field.Array? && |field.items| > 0
    ensures field.NotArray? ==> ProjectPane(ArrayOrEmpty(field)) == Placeholder(PleaseWait)
  {
  }

  /** After a success, the Experience tab shows content iff the payload's list is a non-empty array. */
  lemma ExperiencePaneAfterSuccess(field: ArrayField<ProfessionalExperience>)
    ensures ExperiencePane(ArrayOrEmpty(field)).Content? <==> field.Array? && |field.items| > 0
    ensures field.NotArray? ==> ExperiencePane(ArrayOrEmpty(field)) == Placeholder(Loading)
  {
  }

  class ApplicantDetailDialog {
    var isOpen: bool
    var projects: seq<Project>
    var professionalExperiences: seq<ProfessionalExperience>
    var college: Option<College>
    /** The `(isOpen, applicantId)` pair `getDetails` was last built from; None before the first render. */
    var fetchDeps: Option<(bool, Option<string>)>

    /** Mounting: closed, no data, and no effect has run yet. */
    constructor ()
      ensures !isOpen && projects == [] && professionalExperiences == [] && college == None
      ensures fetchDeps == None
    {
      isOpen := false;
      projects := [];
      professionalExperiences := [];
      college := None;
      fetchDeps := None;
    }

    /** `onOpenChange`: flips `isOpen` and ignores the state the dialog asks for. */
    method Toggle(requested: bool)
      modifies this`isOpen
      ensures isOpen == !old(isOpen)
    {
      isOpen := !isOpen;
    }

    /**
     * A render followed by its effects: `getDetails` is rebuilt, and the effect
     * re-runs, only when `(isOpen, applicantId)` differs from the last pair; the
     * request it issues is the guard's answer for the new pair.
     */
    method RunEffect(applicantId: Option<string>) returns (request: Option<string>)
      modifies this`fetchDeps
      ensures fetchDeps == Some((isOpen, applicantId))
      ensures old(fetchDeps) == Some((isOpen, applicantId)) ==> request == None
      ensures old(fetchDeps) != Some((isOpen, applicantId)) ==> request == ShouldFetch(isOpen, applicantId)
    {
      if fetchDeps == Some((isOpen, applicantId)) {
        request := None;
      } else {
        fetchDeps := Some((isOpen, applicantId));
        request := ShouldFetch(isOpen, applicantId);
      }
    }

    /**
     * The `.then` callback: all three slices are replaced from the payload; a
     * `null` body throws before the first setter and so changes nothing.
     */
    method ApplySuccess(body: ResponseBody)
      modifies this`college, this`projects, this`professionalExperiences
      ensures body.NullBody? ==> unchanged(this)
      ensures body.Body? ==> college == body.data.college
                             && projects == ArrayOrEmpty(body.data.projects)
                             && professionalExperiences == ArrayOrEmpty(body.data.professional_experiences)
      ensures body.Body? ==> (CollegePane(college).Content? <==> body.data.college.Some?)
    {
      match body
      case NullBody =>
      case Body(data) =>
        college := data.college;
        projects := ArrayOrEmpty(data.projects);
        professionalExperiences := ArrayOrEmpty(data.professional_experiences);
    }

    /** The `.catch` callback: the failure is logged and no state changes. */
    method ApplyFailure()
      ensures unchanged(this)
    {
    }
  }

  /** `onOpenChange` twice restores `isOpen`. */
  method ToggleTwice(d: ApplicantDetailDialog, first: bool, second: bool)
    modifies d`isOpen
    ensures d.isOpen == old(d.isOpen)
  {
    d.Toggle(first);
    d.Toggle(second);
  }

  /**
   * One dialog for applicant `x`: mounting issues nothing; opening issues one
   * request for `x`; a render with nothing changed issues none; switching to
   * applicant `y` while open issues one request for `y`; closing issues none.
   */
  method OneFetchPerOpening(x: string, y: string) returns (mounted: Option<string>, whenOpen: Option<string>,
                                                           rerendered: Option<string>, switched: Option<string>,
                                                           closed: Option<string>)
    requires x != "" && y != "" && x != y
    ensures mounted == None && whenOpen == Some(x) && rerendered == None
    ensures switched == Some(y) && closed == None
  {
    var d := new ApplicantDetailDialog();
    mounted := d.RunEffect(Some(x));
    d.Toggle(true);
    whenOpen := d.RunEffect(Some(x));
    rerendered := d.RunEffect(Some(x));
    switched := d.RunEffect(Some(y));
    d.Toggle(false);
    closed := d.RunEffect(Some(y));
  }

  /** A dialog whose applicant has no usable identifier never issues a request. */
  method NoFetchWithoutId(applicantId: Option<string>) returns (whenOpen: Option<string>)
    requires applicantId.None? || applicantId == Some("")
    ensures whenOpen == None
  {
    var d := new ApplicantDetailDialog();
    var mounted := d.RunEffect(applicantId);
    d.Toggle(true);
    whenOpen := d.RunEffect(applicantId);
  }

  /** A failure after a success leaves every tab as the success left it. */
  method FailureKeepsPanes(data: Summary) returns (college: Pane<CollegeView>, projects: Pane<seq<Card>>,
                                                   experiences: Pane<seq<Card>>)
    ensures college == CollegePane(data.college)
    ensures projects == ProjectPane(ArrayOrEmpty(data.projects))
    ensures experiences == ExperiencePane(ArrayOrEmpty(data.professional_experiences))
  {
    var d := new ApplicantDetailDialog();
    d.ApplySuccess(Body(data));
    d.ApplyFailure();
    college := CollegePane(d.college);
    projects := ProjectPane(d.projects);
    experiences := ExperiencePane(d.professionalExperiences);
  }

  /** Before any response, the tabs show "Please Wait", "Please Wait" and "Loading...". */
  method PanesBeforeResponse() returns (college: Pane<CollegeView>, projects: Pane<seq<Card>>,
                                        experiences: Pane<seq<Card>>)
    ensures college == Placeholder(PleaseWait) && projects == Placeholder(PleaseWait)
    ensures experiences == Placeholder(Loading)
  {
    var d := new ApplicantDetailDialog();
    college := CollegePane(d.college);
    projects := ProjectPane(d.projects);
    experiences := ExperiencePane(d.professionalExperiences);
  }
}
