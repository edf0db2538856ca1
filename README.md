# gpt-resume: applicant detail view and record display strings

This project models the small pieces of logic in the resume-screening application:

- **The applicant detail dialog** of the frontend. It covers:
  - which fields of a college record the College tab shows, and under which label;
  - the avatar initials built inline from the applicant's name;
  - the React keys of project cards, experience cards and tech chips;
  - whether each of the three tabs shows its content or a placeholder text;
  - the dialog's state: `isOpen`, `college`, `projects` and `professionalExperiences`, with its fetch guard.
- **The display strings (`__str__`) of the backend records**, and the value ranges their fields declare.

Files:

- `Text.dfy`:
  - `Wrappers.Option` for `undefined`/`null`/`None`;
  - module `Text`: JavaScript's `split` on one character and its inverse `Join`;
  - the text after the last separator (`os.path.basename`);
  - decimal rendering of a natural number, with its parser.
- `ApplicantDetails.dfy` (module `ApplicantDetails`): the dialog's pure view logic. A college record is an ordered sequence of `(key, optional value)` pairs, which is its `Object.keys` enumeration.
- `DetailDialog.dfy` (module `DetailDialog`): the class `ApplicantDetailDialog`. The React hooks become explicit transitions:
  - `Toggle` is `onOpenChange`;
  - `RunEffect` is one render followed by the effect that calls `getDetails`;
  - `ApplySuccess` is the `.then` callback;
  - `ApplyFailure` is the `.catch` callback.

  Small client methods in the same module state whole scenarios, for example one request per opening.
- `Models.dfy` (module `Models`): the `__str__` rules as total functions over optional strings, and the relevance and date constraints as predicates. The text of a UUID (`str(u_id)`) is a parameter.

The dialog builds its avatar initials inline at lines 228-229, and the model follows that expression. It is not the same rule as the result page's `getInitials` helper, which trims, splits on runs of spaces and upper-cases. The inline expression splits on a single space, does not trim and does not upper-case. So:
- a one-word name gives its letter twice (`InitialsOneWord`);
- `"ada lovelace"` gives `"al"` (`InitialsKeepCase`);
- a name padded with spaces gives `""` (`InitialsPadded`).

React expects the keys of sibling elements to be unique. The code keys a tech chip by its tech string and falls back to the index only when the string is missing. So duplicate tech names do collide (`ChipKeysDuplicate`), and only missing entries get distinct index keys (`ChipKeysMissingDistinct`).

## Model

| member | source | states |
|---|---|---|
| `Text.Truthy` | gpt_resume_frontend/components/applicant-details-dialog.tsx:74 | an optional string is truthy iff it is defined and non-empty, as `!value` in JavaScript and `or` in Python decide; the College tab (`CollegeRowsSound`, `CollegeRowsComplete`) and `Models.Or` are stated through it |
| `Text.Split` | gpt_resume_frontend/components/applicant-details-dialog.tsx:228-229 | `name.split(" ")` yields at least one token, no token contains the separator, and a string without the separator is its own single token |
| `Text.JoinSplit` | gpt_resume_frontend/components/applicant-details-dialog.tsx:228-229 | joining the tokens of a split with the separator gives back the original string |
| `Text.SplitJoin` | gpt_resume_frontend/components/applicant-details-dialog.tsx:228-229 | splitting a join of separator-free tokens gives back exactly those tokens |
| `Text.SplitAfterWord` | gpt_resume_frontend/components/applicant-details-dialog.tsx:228-229 | a separator-free word followed by the separator splits off as one token in front of the split of the rest |
| `Text.LastSegment` | gpt_resume/api/models.py:21 | `os.path.basename` with `/` as separator: the text after the last separator is a suffix of the input, contains no separator, and is preceded by a separator unless it is the whole input |
| `Text.SplitLast` | gpt_resume_frontend/components/applicant-details-dialog.tsx:229 | the last token of a split (the `length - 1` index) is the text after the last separator |
| `Text.SplitFirst` | gpt_resume_frontend/components/applicant-details-dialog.tsx:228 | the first token is empty exactly when the string is empty or starts with the separator, and otherwise begins with the string's first character |
| `Text.NatToString` | gpt_resume_frontend/components/applicant-details-dialog.tsx:104 | the decimal rendering of an index is non-empty, all digits, and has no leading zero |
| `Text.ParseNatToString` | gpt_resume_frontend/components/applicant-details-dialog.tsx:104 | reading back the decimal rendering of a number gives that number |
| `Text.NatToStringInjective` | gpt_resume_frontend/components/applicant-details-dialog.tsx:151 | distinct indices have distinct decimal renderings |
| `ApplicantDetails.CollegeLabels` | gpt_resume_frontend/components/applicant-details-dialog.tsx:60-77 | `name`, `branch`, `degree`, `start_date` and `end_date` are labelled `Name`, `Branch`, `Degree`, `Start` and `End`; any other key is shown as itself |
| `ApplicantDetails.CollegeLabel` | gpt_resume_frontend/components/applicant-details-dialog.tsx:77 | a key is shown as itself exactly when it is not one of the five known keys; a known key is shown as one of the mapped labels (the five values are stated by `CollegeLabels`) |
| `ApplicantDetails.CollegeRows` | gpt_resume_frontend/components/applicant-details-dialog.tsx:72-81 | the college tab never shows more rows than the record has keys; every row has a non-empty value and the label of its key |
| `ApplicantDetails.CollegeRowsAppend` | gpt_resume_frontend/components/applicant-details-dialog.tsx:72-74 | the filter works key by key in enumeration order: the rows of two consecutive runs of keys are the rows of the first followed by the rows of the second |
| `ApplicantDetails.CollegeRowsSound` | gpt_resume_frontend/components/applicant-details-dialog.tsx:72-78 | every row is a key of the record whose value is defined and non-empty, with that value and the key's label |
| `ApplicantDetails.CollegeRowsComplete` | gpt_resume_frontend/components/applicant-details-dialog.tsx:72-78 | every key whose value is defined and non-empty gets a row |
| `ApplicantDetails.CollegeRowsExactlyOnce` | gpt_resume_frontend/components/applicant-details-dialog.tsx:72-76 | with the distinct keys of an object, a key with a non-empty value appears in exactly one row, and any other key in none |
| `ApplicantDetails.RowCountAppend` | gpt_resume_frontend/components/applicant-details-dialog.tsx:72-76 | the row count of one key over two consecutive row lists is the sum of the two counts |
| `ApplicantDetails.CollegeRowsOrder` | gpt_resume_frontend/components/applicant-details-dialog.tsx:72 | two shown keys keep their enumeration order: the earlier key's row comes first |
| `ApplicantDetails.CollegeRowsNoneShown` | gpt_resume_frontend/components/applicant-details-dialog.tsx:73-74 | a record whose values are all undefined or `""` shows no rows |
| `ApplicantDetails.CollegeTab` | gpt_resume_frontend/components/applicant-details-dialog.tsx:68 | the "No college info available" view is shown exactly when there is no college record; otherwise the view lists exactly the record's `CollegeRows` |
| `ApplicantDetails.FirstChar` | gpt_resume_frontend/components/applicant-details-dialog.tsx:228-229 | `t[0] ?? ""` is empty exactly for the empty string, and otherwise is the first character |
| `ApplicantDetails.LeadInitial` | gpt_resume_frontend/components/applicant-details-dialog.tsx:228 | the first initial is the name's first character, or nothing when the name is empty or starts with a space |
| `ApplicantDetails.TrailInitial` | gpt_resume_frontend/components/applicant-details-dialog.tsx:229 | the second initial is the first character of the text after the last space, or nothing when that text is empty |
| `ApplicantDetails.Initials` | gpt_resume_frontend/components/applicant-details-dialog.tsx:228-229 | the initials have at most two characters, are `""` for an absent name, and every character comes from the name unchanged |
| `ApplicantDetails.InitialsDirect` | gpt_resume_frontend/components/applicant-details-dialog.tsx:228-229 | the initials are the name's first character unless it is a space, followed by the first character after the last space |
| `ApplicantDetails.InitialsOfNothing` | gpt_resume_frontend/components/applicant-details-dialog.tsx:228-229 | an absent name and an empty name both give `""` |
| `ApplicantDetails.InitialsOneWord` | gpt_resume_frontend/components/applicant-details-dialog.tsx:228-229 | a one-word name gives its first character twice |
| `ApplicantDetails.InitialsOfTokens` | gpt_resume_frontend/components/applicant-details-dialog.tsx:228-229 | when the first and last tokens are non-empty, the initials are their first characters |
| `ApplicantDetails.InitialsOfWords` | gpt_resume_frontend/components/applicant-details-dialog.tsx:228-229 | non-empty words joined by single spaces give the first character of the first word followed by that of the last word |
| `ApplicantDetails.InitialsKeepCase` | gpt_resume_frontend/components/applicant-details-dialog.tsx:228-229 | case is not changed: `"ada lovelace"` gives `"al"` |
| `ApplicantDetails.InitialsPadded` | gpt_resume_frontend/components/applicant-details-dialog.tsx:228-229 | no trimming: a name that starts and ends with a space gives `""` |
| `ApplicantDetails.ChipKey` | gpt_resume_frontend/components/applicant-details-dialog.tsx:104 | a present tech string, even `""`, is its own key; a missing one gets the prefix followed by the index's decimal rendering (`NatToString`, no leading zero), which reads back as the index |
| `ApplicantDetails.ChipKeys` | gpt_resume_frontend/components/applicant-details-dialog.tsx:102-104 | there is one chip key per tech entry; a present tech string, even `""`, is its own key, and a missing entry at index `i` gets the prefix followed by `i` in decimal |
| `ApplicantDetails.ProjectKey` | gpt_resume_frontend/components/applicant-details-dialog.tsx:125 | a project's key is its `u_id` whenever that is present, even when empty; otherwise it is `proj-` followed by the title |
| `ApplicantDetails.ExperienceKey` | gpt_resume_frontend/components/applicant-details-dialog.tsx:170 | an experience's key is its `u_id` whenever that is present; otherwise it is `pe-` followed by the organization |
| `ApplicantDetails.ProjectFallbackKeysDistinct` | gpt_resume_frontend/components/applicant-details-dialog.tsx:125 | two projects without `u_id` get equal keys exactly when their titles are equal |
| `ApplicantDetails.ProjectKeysCanCollide` | gpt_resume_frontend/components/applicant-details-dialog.tsx:125 | a `u_id` that spells `proj-<title>` gets the same key as a project without `u_id` carrying that title |
| `ApplicantDetails.ChipKeysDuplicate` | gpt_resume_frontend/components/applicant-details-dialog.tsx:104 | two chips with the same tech string get the same key |
| `ApplicantDetails.ChipKeysCanCollide` | gpt_resume_frontend/components/applicant-details-dialog.tsx:104 | a present tech string `tech-1` at index 0 and a missing entry at index 1 get the same key, `tech-1` |
| `ApplicantDetails.ChipKeysMissingDistinct` | gpt_resume_frontend/components/applicant-details-dialog.tsx:104 | two missing tech entries at different positions get different index keys |
| `ApplicantDetails.ProjectCard` | gpt_resume_frontend/components/applicant-details-dialog.tsx:90-115 | a project card is keyed by the project key and has one chip per tech entry, keyed by the tech string or, when that is missing, by `tech-` and the index |
| `ApplicantDetails.ProjectTab` | gpt_resume_frontend/components/applicant-details-dialog.tsx:121-128 | there is one card per project, in order, keyed by the project key, whose chips carry the `tech-` chip keys of that project's tech stack |
| `ApplicantDetails.ExperienceCard` | gpt_resume_frontend/components/applicant-details-dialog.tsx:135-160 | an experience card is keyed by the experience key and has one chip per tech entry, keyed by the tech string or, when that is missing, by `pe-tech-` and the index |
| `ApplicantDetails.ExperienceTab` | gpt_resume_frontend/components/applicant-details-dialog.tsx:166-173 | there is one card per experience, in order, keyed by the experience key, whose chips carry the `pe-tech-` chip keys of that experience's tech stack |
| `ApplicantDetails.CollegePane` | gpt_resume_frontend/components/applicant-details-dialog.tsx:250 | the College tab shows content iff `college` is defined, an empty record included, and then lists exactly the record's `CollegeRows`; otherwise "Please Wait"; it never reaches the "no info" view |
| `ApplicantDetails.ProjectPane` | gpt_resume_frontend/components/applicant-details-dialog.tsx:254 | the Project tab shows the `ProjectTab` cards iff there is at least one project, and otherwise "Please Wait" |
| `ApplicantDetails.ExperiencePane` | gpt_resume_frontend/components/applicant-details-dialog.tsx:258-262 | the Experience tab shows the `ExperienceTab` cards iff there is at least one entry, and otherwise "Loading..." |
| `DetailDialog.ArrayOrEmpty` | gpt_resume_frontend/components/applicant-details-dialog.tsx:200-201 | an array field is copied as it is; anything else gives `[]`, so a non-empty result always comes from an array |
| `DetailDialog.ShouldFetch` | gpt_resume_frontend/components/applicant-details-dialog.tsx:187-191 | a request is issued iff the dialog is open and the applicant id is present and non-empty, and the request is for that id |
| `DetailDialog.ProjectPaneAfterSuccess` | gpt_resume_frontend/components/applicant-details-dialog.tsx:200 | after a success, the Project tab shows content iff the payload's `projects` is a non-empty array; a non-array gives "Please Wait" |
| `DetailDialog.ExperiencePaneAfterSuccess` | gpt_resume_frontend/components/applicant-details-dialog.tsx:201 | after a success, the Experience tab shows content iff the payload's list is a non-empty array; a non-array gives "Loading..." |
| `DetailDialog.ApplicantDetailDialog.constructor` | gpt_resume_frontend/components/applicant-details-dialog.tsx:181-184 | the dialog starts closed, with no projects, no experiences and no college, and with no effect run yet |
| `DetailDialog.ApplicantDetailDialog.Toggle` | gpt_resume_frontend/components/applicant-details-dialog.tsx:215-217 | `onOpenChange` flips `isOpen`, whatever state is requested, and changes nothing else |
| `DetailDialog.ApplicantDetailDialog.RunEffect` | gpt_resume_frontend/components/applicant-details-dialog.tsx:190-211 | the effect re-runs only when `(isOpen, applicantId)` changed since the last run, and then issues what the guard says; an unchanged pair issues nothing |
| `DetailDialog.ApplicantDetailDialog.ApplySuccess` | gpt_resume_frontend/components/applicant-details-dialog.tsx:197-202 | a success sets all three slices together: `college` to the payload's (possibly undefined) college, the two lists to the payload arrays or to `[]`; a `null` body throws before any setter and changes nothing |
| `DetailDialog.ApplicantDetailDialog.ApplyFailure` | gpt_resume_frontend/components/applicant-details-dialog.tsx:203-205 | a failed fetch changes no state |
| `DetailDialog.ToggleTwice` | gpt_resume_frontend/components/applicant-details-dialog.tsx:215-217 | two `onOpenChange` calls restore `isOpen` |
| `DetailDialog.OneFetchPerOpening` | gpt_resume_frontend/components/applicant-details-dialog.tsx:181-217 | mounting issues no request; opening issues one request for the applicant; a render with nothing changed issues none; a new applicant while open issues one request for it; closing issues none |
| `DetailDialog.NoFetchWithoutId` | gpt_resume_frontend/components/applicant-details-dialog.tsx:187-191 | an applicant without an id, or with an empty id, never causes a request, even when the dialog is open |
| `DetailDialog.FailureKeepsPanes` | gpt_resume_frontend/components/applicant-details-dialog.tsx:198-205 | a failure after a success leaves all three tabs exactly as the success left them: the College tab is the pane of the payload's college, and the two list tabs are the panes of the payload arrays or of `[]` |
| `DetailDialog.PanesBeforeResponse` | gpt_resume_frontend/components/applicant-details-dialog.tsx:250-262 | before any response the tabs show "Please Wait", "Please Wait" and "Loading..." |
| `Models.Or` | gpt_resume/api/models.py:57 | Python's `s or fallback` is `s` when it is a non-empty string, and otherwise the fallback |
| `Models.IdStr` | gpt_resume/api/models.py:21-23 | `str(id)` is `"None"` for an unsaved record, and otherwise a digit string without a leading zero that reads back as the id |
| `Models.DocumentStr` | gpt_resume/api/models.py:18-23 | a document shows the basename of its stored name (the text after its last `/`, `Text.LastSegment`) when that name is non-empty; with no name, an empty name or a raising attribute it shows `str(id)` |
| `Models.DocumentStrIsLastComponent` | gpt_resume/api/models.py:21 | the name is a directory part ending in `/`, or nothing, followed by the displayed basename |
| `Models.DocumentStrLastToken` | gpt_resume/api/models.py:21 | the displayed basename is the last `/`-separated component, so a name ending in `/` displays as `""` |
| `Models.JobStr` | gpt_resume/api/models.py:34-36 | a title over 80 characters gives its first 80 characters plus `...`, of length 83; a non-empty title of at most 80 characters is returned as is; an empty or absent title gives `str(u_id)` |
| `Models.JobStrKeepsTitle` | gpt_resume/api/models.py:36 | a non-empty title's display starts with the title, or with its first 80 characters, and is at most 83 characters long |
| `Models.JobStrUnchangedIff` | gpt_resume/api/models.py:36 | a non-empty title is displayed unchanged iff it has at most 80 characters, or has 83 and already ends in `...` |
| `Models.ApplicantStr` | gpt_resume/api/models.py:56-57 | an applicant shows its name when that is non-empty, and otherwise `str(u_id)`; the result is empty only if both are |
| `Models.ProjectStr` | gpt_resume/api/models.py:94-95 | a project shows its title when that is non-empty, and otherwise `Project ` followed by `str(u_id)` |
| `Models.CollegeStr` | gpt_resume/api/models.py:73-74 | a college shows `name or "College"`, then ` - `, then `degree or ""` |
| `Models.ExperienceStr` | gpt_resume/api/models.py:115-116 | an experience shows `role or "Experience"`, then ` @ `, then `organization or ""` |
| `Models.CollegeStrSplitBack` | gpt_resume/api/models.py:74 | when the displayed name has no `-`, the text before the first `-` of the college string is that name plus a space |
| `Models.ExperienceStrSplitBack` | gpt_resume/api/models.py:116 | when the displayed role has no `@`, the text before the first `@` of the experience string is that role plus a space |
| `Models.RelevanceMax` | gpt_resume/api/models.py:50-113 | the upper validator bound of each relevance field: 100, 5 and 10 (stated by `RelevanceRanges`) |
| `Models.RelevanceValid` | gpt_resume/api/models.py:52 | a relevance passes `MinValueValidator(0)` and the field's `MaxValueValidator` (its ranges are stated by `RelevanceRanges`) |
| `Models.RelevanceRanges` | gpt_resume/api/models.py:50-113 | a relevance is valid from 0 to 100 for an applicant, 0 to 5 for a project and 0 to 10 for an experience, bounds included |
| `Models.RelevanceDefaultValid` | gpt_resume/api/models.py:50-113 | the default relevance 0 lies in every range |
| `Models.CollegeDateValid` | gpt_resume/api/models.py:69-70 | a college date is `NULL` or has at most 7 characters (instances stated by `CollegeDateExamples`) |
| `Models.CollegeDateExamples` | gpt_resume/api/models.py:68-70 | a college date may be missing, empty or `YYYY-MM` (7 characters); 8 characters are rejected |

## Left out

- JSX markup, CSS classes and the `Dialog`, `Tabs` and `Avatar` primitives. These are presentation only. A card is modelled only by its React key and the keys of its chips.
- The axios request, the hard-coded backend URL and the `console.error` logging. These are I/O. A request is modelled as the applicant id it is issued for.
- React's scheduling of `useState`, `useCallback` and `useEffect`. Each render-and-effect is one explicit `RunEffect` call.
- Toggle: the model flips `isOpen` once per call. In React, two `onOpenChange` calls within one render both read the same stale `isOpen`, so the second would not flip it back. Renders are assumed to happen between calls.
- The asynchronous order of responses. A stale response that overwrites newer state is a concurrency effect; each response is applied with `ApplySuccess` or `ApplyFailure` in whatever order the caller chooses.
- JavaScript's `Object.keys` puts integer-like keys first, in ascending order. The model takes the record's enumeration order as given, as a sequence.
- `null` values in a college record. These are outside the declared `string | undefined` type. A `null` `u_id` or tech entry is the same as an absent one, since `??` treats both alike.
- `tech_stack` and `time_duration` are taken as the non-null list and record the TypeScript interfaces declare. The backend declares both `null=True` (models.py lines 85-86 and 106-107), and a `null` one makes the card's `tech_stack.map` or `time_duration.start_date` throw during render. That crash is not modelled.
- `project_title`, `organization` and the dates are taken as the strings the TypeScript interfaces declare. A missing title would render as the text `undefined` in a fallback key, and the model does not cover that.
- Relevance numbers on the frontend are displayed only, so they are modelled as integers. Floating point is not modelled.
- JavaScript strings index UTF-16 code units, and Dafny's `char` is a Unicode scalar value. A name starting with a character outside the Basic Multilingual Plane is not modelled at that level.
- Django ORM persistence, foreign keys, cascade deletes and UUID generation. These need a database. `str(u_id)` is a parameter.
- The internals of `FileExtensionValidator`, `MinValueValidator` and `MaxValueValidator`. Only the declared bounds and the `max_length` of the date fields are modelled.
- The `except Exception` branch of `Document.__str__` is modelled as a stored file whose attribute access raises. Which exceptions storage code can raise is not modelled.
- `gpt_resume/gpt_resume/urls.py` is not part of this model. It is framework routing and static-file serving, and its health check returns a constant.
- The resume-URL resolver, `getInitials` and the result page in `gpt_resume_frontend/pages/result/[job_u_id].tsx` are not part of this model.
- The field-name differences between frontend and backend (`project_title` and `relevancy` against `title` and `relevance`) are not modelled. The serializer that would map them is not part of this model.
