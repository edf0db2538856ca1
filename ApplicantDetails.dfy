/**
 * The pure view logic of the applicant detail dialog: which college fields are
 * shown and under which label, the avatar initials, the React keys of cards and
 * tech chips, and whether each tab shows its content or a placeholder text.
 */
module ApplicantDetails {
  import opened Wrappers
  import opened Text

  /* ------------------------------- Records ------------------------------- */

  /** One property of a college record; a JavaScript object is its properties in key order. */
  datatype CollegeField = CollegeField(key: string, value: Option<string>)

  type College = seq<CollegeField>

  /** An object enumerates every key once. */
  predicate DistinctKeys(c: College) {
    forall i, j :: 0 <= i < j < |c| ==> c[i].key != c[j].key
  }

  datatype TimeDuration = TimeDuration(start_date: string, end_date: string, duration_in_months: int)

  /** A project as the frontend receives it; `u_id` may be missing at run time, and so may a tech entry. */
  datatype Project = Project(
    u_id: Option<string>,
    project_title: string,
    short_description: string,
    tech_stack: seq<Option<string>>,
    time_duration: TimeDuration,
    relevancy: int)

  datatype ProfessionalExperience = ProfessionalExperience(
    u_id: Option<string>,
    organization: string,
    role: string,
    tech_stack: seq<Option<string>>,
    short_description: string,
    time_duration: TimeDuration,
    relevance: int)

  /* ------------------------------ College tab ------------------------------ */

  const CollegeKeyMapping: map<string, string> :=
    map["name" := "Name", "branch" := "Branch", "degree" := "Degree", "start_date" := "Start", "end_date" := "End"]

  /** `COLLEGE_KEY_MAPPING.get(key) ?? key`: a known key is always relabelled, any other key kept. */
  function CollegeLabel(key: string): (caption: string)
    ensures caption == key <==> key !in CollegeKeyMapping
    ensures key in CollegeKeyMapping ==> caption in CollegeKeyMapping.Values
  {
    if key in CollegeKeyMapping then CollegeKeyMapping[key] else key
  }

  /** The five known keys get their fixed labels; every other key is shown as itself. */
  lemma CollegeLabels(key: string)
    ensures CollegeLabel("name") == "Name" && CollegeLabel("branch") == "Branch"
    ensures CollegeLabel("degree") == "Degree"
    ensures CollegeLabel("start_date") == "Start" && CollegeLabel("end_date") == "End"
    ensures key !in {"name", "branch", "degree", "start_date", "end_date"} ==> CollegeLabel(key) == key
  {
  }

  /** One displayed line of the college tab: React key, label and value. */
  datatype CollegeRow = CollegeRow(key: string, caption: string, value: string)

  function RowOf(f: CollegeField): CollegeRow
    requires Truthy(f.value)
  {
    CollegeRow(f.key, CollegeLabel(f.key), f.value.value)
  }

  /** `Object.keys(college).map(...)` where a falsy value renders `null`, i.e. nothing. */
  function CollegeRows(c: College): (rows: seq<CollegeRow>)
    ensures |rows| <= |c|
    ensures forall k :: 0 <= k < |rows| ==> rows[k].value != "" && rows[k].caption == CollegeLabel(rows[k].key)
    decreases |c|
  {
    if c == [] then []
    else (if Truthy(c[0].value) then [RowOf(c[0])] else []) + CollegeRows(c[1..])
  }

  /** The rows of two consecutive runs of keys are the rows of each, in the same order. */
  lemma {:induction false} CollegeRowsAppend(a: College, b: College)
    ensures CollegeRows(a + b) == CollegeRows(a) + CollegeRows(b)
    decreases |a|
  {
    if a != [] {
      assert (a + b)[0] == a[0] && (a + b)[1..] == a[1..] + b;
      CollegeRowsAppend(a[1..], b);
      var head := if Truthy(a[0].value) then [RowOf(a[0])] else [];
      calc {
        CollegeRows(a + b);
        head + CollegeRows(a[1..] + b);
        head + (CollegeRows(a[1..]) + CollegeRows(b));
        (head + CollegeRows(a[1..])) + CollegeRows(b);
      }
    } else {
      assert a + b == b;
    }
  }

  /** Every row comes from a field of the record whose value is non-empty. */
  lemma {:induction false} CollegeRowsSound(c: College, k: nat)
    requires k < |CollegeRows(c)|
    ensures exists i :: 0 <= i < |c| && Truthy(c[i].value) && CollegeRows(c)[k] == RowOf(c[i])
    decreases |c|
  {
    var head := if Truthy(c[0].value) then [RowOf(c[0])] else [];
    if k < |head| {
      assert CollegeRows(c)[k] == RowOf(c[0]);
    } else {
      CollegeRowsSound(c[1..], k - |head|);
      var i :| 0 <= i < |c[1..]| && Truthy(c[1..][i].value) && CollegeRows(c[1..])[k - |head|] == RowOf(c[1..][i]);
      assert c[i + 1] == c[1..][i];
    }
  }

  /** Every field whose value is non-empty has a row. */
  lemma {:induction false} CollegeRowsComplete(c: College, i: nat)
    requires i < |c| && Truthy(c[i].value)
    ensures exists k :: 0 <= k < |CollegeRows(c)| && CollegeRows(c)[k] == RowOf(c[i])
    decreases |c|
  {
    var head := if Truthy(c[0].value) then [RowOf(c[0])] else [];
    if i == 0 {
      assert CollegeRows(c)[0] == RowOf(c[0]);
    } else {
      CollegeRowsComplete(c[1..], i - 1);
      var k :| 0 <= k < |CollegeRows(c[1..])| && CollegeRows(c[1..])[k] == RowOf(c[1..][i - 1]);
      assert CollegeRows(c)[|head| + k] == RowOf(c[i]);
    }
  }

  /** Number of rows carrying a given key. */
  function RowCount(rows: seq<CollegeRow>, key: string): nat
    decreases |rows|
  {
    if rows == [] then 0 else (if rows[0].key == key then 1 else 0) + RowCount(rows[1..], key)
  }

  ghost predicate Shown(c: College, key: string) {
    exists i :: 0 <= i < |c| && c[i].key == key && Truthy(c[i].value)
  }

  /** In a record with distinct keys, a key with a non-empty value is shown exactly once, and any other key never. */
  lemma {:induction false} CollegeRowsExactlyOnce(c: College, key: string)
    requires DistinctKeys(c)
    ensures RowCount(CollegeRows(c), key) == if Shown(c, key) then 1 else 0
    decreases |c|
  {
    if c != [] {
      var head := if Truthy(c[0].value) then [RowOf(c[0])] else [];
      assert DistinctKeys(c[1..]) by {
        forall i, j | 0 <= i < j < |c[1..]| ensures c[1..][i].key != c[1..][j].key {
          assert c[1..][i] == c[i + 1] && c[1..][j] == c[j + 1];
        }
      }
      CollegeRowsExactlyOnce(c[1..], key);
      RowCountAppend(head, CollegeRows(c[1..]), key);
      if c[0].key == key {
        forall i | 0 <= i < |c[1..]| ensures c[1..][i].key != key {
          assert c[1..][i] == c[i + 1];
        }
        assert !Shown(c[1..], key);
      }
      if Shown(c, key) && !(c[0].key == key && Truthy(c[0].value)) {
        var i :| 0 <= i < |c| && c[i].key == key && Truthy(c[i].value);
        assert i > 0 && c[1..][i - 1] == c[i];
      }
      if Shown(c[1..], key) {
        var i :| 0 <= i < |c[1..]| && c[1..][i].key == key && Truthy(c[1..][i].value);
        assert c[i + 1] == c[1..][i];
      }
    }
  }

  lemma {:induction false} RowCountAppend(a: seq<CollegeRow>, b: seq<CollegeRow>, key: string)
    ensures RowCount(a + b, key) == RowCount(a, key) + RowCount(b, key)
    decreases |a|
  {
    if a != [] {
      assert (a + b)[0] == a[0] && (a + b)[1..] == a[1..] + b;
      RowCountAppend(a[1..], b, key);
    } else {
      assert a + b == b;
    }
  }

  /** Rows follow the record's key order: an earlier shown field has an earlier row. */
  lemma CollegeRowsOrder(c: College, i: nat, j: nat)
    requires i < j < |c| && Truthy(c[i].value) && Truthy(c[j].value)
    ensures exists p, q :: 0 <= p < q < |CollegeRows(c)|
                           && CollegeRows(c)[p] == RowOf(c[i]) && CollegeRows(c)[q] == RowOf(c[j])
  {
    var front, back := c[..j], c[j..];
    assert c == front + back;
    CollegeRowsAppend(front, back);
    CollegeRowsComplete(front, i);
    var p :| 0 <= p < |CollegeRows(front)| && CollegeRows(front)[p] == RowOf(front[i]);
    var q := |CollegeRows(front)|;
    assert back[0] == c[j];
    assert CollegeRows(back)[0] == RowOf(c[j]);
    assert CollegeRows(c)[p] == RowOf(c[i]);
    assert CollegeRows(c)[q] == RowOf(c[j]);
  }

  /** A record none of whose values is non-empty shows no rows. */
  lemma {:induction false} CollegeRowsNoneShown(c: College)
    requires forall i :: 0 <= i < |c| ==> !Truthy(c[i].value)
    ensures CollegeRows(c) == []
    decreases |c|
  {
    if c != [] {
      CollegeRowsNoneShown(c[1..]);
    }
  }

  datatype CollegeView = NoCollegeInfo | CollegeDetails(rows: seq<CollegeRow>)

  /** `CollegeTab`: a missing record gives the "No college info available" text. */
  function CollegeTab(college: Option<College>): (view: CollegeView)
    ensures view.NoCollegeInfo? <==> college.None?
    ensures college.Some? ==> view == CollegeDetails(CollegeRows(college.value))
  {
    match college
    case None => NoCollegeInfo
    case Some(c) => CollegeDetails(CollegeRows(c))
  }

  /* ------------------------------- Initials ------------------------------- */

  /** `t[0] ?? ""` */
  function FirstChar(t: string): (r: string)
    ensures |r| <= 1 && (r == [] <==> t == [])
    ensures r != [] ==> r[0] == t[0]
  {
    if t == [] then [] else [t[0]]
  }

  /** `(name.split(" ")[0] ?? "")[0] ?? ""`: the name's first character, unless the first token is empty. */
  function LeadInitial(s: string): (r: string)
    ensures r == if s == [] || s[0] == ' ' then [] else [s[0]]
  {
    SplitFirst(s, ' ');
    FirstChar(Split(s, ' ')[0])
  }

  /** `(name ? name.split(" ")[length - 1] : "")?.[0] ?? ""`: the first character after the last space. */
  function TrailInitial(s: string): (r: string)
    ensures r == FirstChar(LastSegment(s, ' '))
  {
    if s == [] then []
    else
      var parts := Split(s, ' ');
      SplitLast(s, ' ');
      FirstChar(parts[|parts| - 1])
  }

  /**
   * The avatar text of the dialog header: the first character of the first
   * space-separated token followed by the first character of the last token.
   * The name is neither trimmed nor upper-cased.
   */
  function Initials(name: Option<string>): (r: string)
    ensures |r| <= 2
    ensures name.None? ==> r == []
    ensures name.Some? ==> forall k :: 0 <= k < |r| ==> r[k] in name.value
  {
    match name
    case None => []
    case Some(s) =>
      var last := LastSegment(s, ' ');
      assert last != [] ==> last[0] == s[|s| - |last|];
      LeadInitial(s) + TrailInitial(s)
  }

  /** Initials read off the name directly: its first character unless that is a space, then the first character after the last space. */
  lemma InitialsDirect(s: string)
    ensures Initials(Some(s)) ==
            (if s == [] || s[0] == ' ' then [] else [s[0]]) + FirstChar(LastSegment(s, ' '))
  {
  }

  lemma InitialsOfNothing()
    ensures Initials(None) == [] && Initials(Some("")) == []
  {
  }

  /** A one-word name gives its first letter twice. */
  lemma InitialsOneWord(s: string)
    requires s != [] && ' ' !in s
    ensures Initials(Some(s)) == [s[0], s[0]]
  {
    InitialsDirect(s);
  }

  /** A name whose first and last tokens are non-empty gives their first characters. */
  lemma InitialsOfTokens(s: string, parts: seq<string>)
    requires Split(s, ' ') == parts && parts[0] != [] && parts[|parts| - 1] != []
    ensures Initials(Some(s)) == [parts[0][0], parts[|parts| - 1][0]]
  {
    assert LeadInitial(s) == [parts[0][0]] by {
      SplitFirst(s, ' ');
    }
    assert TrailInitial(s) == [parts[|parts| - 1][0]] by {
      SplitLast(s, ' ');
    }
  }

  /** Words joined by single spaces give the first letters of the first and the last word. */
  lemma InitialsOfWords(words: seq<string>)
    requires |words| >= 1
    requires forall i :: 0 <= i < |words| ==> words[i] != [] && ' ' !in words[i]
    ensures Initials(Some(Join(words, ' '))) == [words[0][0], words[|words| - 1][0]]
  {
    SplitJoin(words, ' ');
    InitialsOfTokens(Join(words, ' '), words);
  }

  /** Case is kept: a lower-case name gives lower-case initials. */
  lemma InitialsKeepCase()
    ensures Initials(Some("ada lovelace")) == "al"
  {
    assert Join(["ada", "lovelace"], ' ') == "ada lovelace";
    InitialsOfWords(["ada", "lovelace"]);
  }

  /** Surrounding spaces are not trimmed: a name that starts and ends with a space gives no initials. */
  lemma InitialsPadded(s: string)
    requires |s| >= 1 && s[0] == ' ' && s[|s| - 1] == ' '
    ensures Initials(Some(s)) == []
  {
    InitialsDirect(s);
    assert LastSegment(s, ' ') == [];
  }

  /* ------------------------------ React keys ------------------------------ */

  /**
   * `project.u_id ?? \`proj-${project.project_title}\``: a present `u_id` is the key,
   * even when it is empty; the title only stands in for a missing one.
   */
  function ProjectKey(p: Project): (key: string)
    ensures p.u_id.Some? ==> key == p.u_id.value
    ensures p.u_id.None? ==> |key| == 5 + |p.project_title| && key[..5] == "proj-" && key[5..] == p.project_title
  {
    match p.u_id
    case Some(id) => id
    case None => "proj-" + p.project_title
  }

  /** `pe.u_id ?? \`pe-${pe.organization}\``, with the same fallback rule. */
  function ExperienceKey(pe: ProfessionalExperience): (key: string)
    ensures pe.u_id.Some? ==> key == pe.u_id.value
    ensures pe.u_id.None? ==> |key| == 3 + |pe.organization| && key[..3] == "pe-" && key[3..] == pe.organization
  {
    match pe.u_id
    case Some(id) => id
    case None => "pe-" + pe.organization
  }

  const ProjectChipPrefix := "tech-"
  const ExperienceChipPrefix := "pe-tech-"

  /**
   * `tech ?? \`${prefix}${index}\``: a present tech string is the key, even when it
   * is empty; a missing one gets the prefix followed by the index in decimal.
   */
  function ChipKey(prefix: string, tech: Option<string>, index: nat): (key: string)
    ensures tech.Some? ==> key == tech.value
    ensures tech.None? ==> |key| > |prefix| && key[..|prefix|] == prefix && key[|prefix|..] == NatToString(index)
    ensures tech.None? ==> ParseDecimal(key[|prefix|..]) == index
  {
    match tech
    case Some(t) => t
    case None =>
      ParseNatToString(index);
      assert (prefix + NatToString(index))[|prefix|..] == NatToString(index);
      prefix + NatToString(index)
  }

  /** The keys of the chips of one card, one per tech entry. */
  function ChipKeys(prefix: string, techs: seq<Option<string>>): (keys: seq<string>)
    ensures |keys| == |techs|
    ensures forall i :: 0 <= i < |techs| && techs[i].Some? ==> keys[i] == techs[i].value
    ensures forall i :: 0 <= i < |techs| && techs[i].None? ==> keys[i] == prefix + NatToString(i)
  {
    seq(|techs|, i requires 0 <= i < |techs| => ChipKey(prefix, techs[i], i))
  }

  /** Fallback keys of two projects without `u_id` differ exactly when their titles differ. */
  lemma ProjectFallbackKeysDistinct(p: Project, q: Project)
    requires p.u_id.None? && q.u_id.None?
    ensures ProjectKey(p) == ProjectKey(q) <==> p.project_title == q.project_title
  {
    if ProjectKey(p) == ProjectKey(q) {
      assert ProjectKey(p)[5..] == p.project_title;
      assert ProjectKey(q)[5..] == q.project_title;
    }
  }

  /** A `u_id` may spell another project's fallback key, so keys can collide across the two forms. */
  lemma ProjectKeysCanCollide(title: string, rest: Project)
    ensures ProjectKey(rest.(u_id := Some("proj-" + title)))
         == ProjectKey(rest.(u_id := None, project_title := title))
  {
  }

  /** Two chips with the same tech string get the same key. */
  lemma ChipKeysDuplicate(prefix: string, techs: seq<Option<string>>, i: nat, j: nat)
    requires i < |techs| && j < |techs| && techs[i].Some? && techs[i] == techs[j]
    ensures ChipKeys(prefix, techs)[i] == ChipKeys(prefix, techs)[j]
  {
  }

  /** A tech string may spell the index key of a missing entry, so the two key forms can collide. */
  lemma ChipKeysCanCollide()
    ensures var keys := ChipKeys(ProjectChipPrefix, [Some("tech-1"), None]);
            keys[0] == keys[1] == "tech-1"
  {
    assert NatToString(1) == "1";
  }

  /** Two missing tech entries at different positions get different keys. */
  lemma ChipKeysMissingDistinct(prefix: string, techs: seq<Option<string>>, i: nat, j: nat)
    requires i < |techs| && j < |techs| && i != j && techs[i].None? && techs[j].None?
    ensures ChipKeys(prefix, techs)[i] != ChipKeys(prefix, techs)[j]
  {
    assert ChipKeys(prefix, techs)[i] == ChipKey(prefix, None, i);
    assert ChipKeys(prefix, techs)[j] == ChipKey(prefix, None, j);
  }

  /* -------------------------------- Tabs -------------------------------- */

  /** What a tab shows: its content, or a placeholder text. */
  datatype Pane<T> = Content(body: T) | Placeholder(message: string)

  const PleaseWait := "Please Wait"
  const Loading := "Loading..."

  /** A rendered card: its React key and the keys of its tech chips. */
  datatype Card = Card(key: string, chipKeys: seq<string>)

  /**
   * `ProjectCard`: keyed by the project key; one chip per tech entry, keyed by the
   * tech string or, for a missing one, by `tech-` and its index.
   */
  function ProjectCard(p: Project): (card: Card)
    ensures card.key == ProjectKey(p) && |card.chipKeys| == |p.tech_stack|
    ensures forall i :: 0 <= i < |p.tech_stack| && p.tech_stack[i].Some? ==> card.chipKeys[i] == p.tech_stack[i].value
    ensures forall i :: 0 <= i < |p.tech_stack| && p.tech_stack[i].None? ==> card.chipKeys[i] == "tech-" + NatToString(i)
  {
    Card(ProjectKey(p), ChipKeys(ProjectChipPrefix, p.tech_stack))
  }

  /** `ProfessionalExperienceCard`: the same, with `pe-tech-` for a missing tech entry. */
  function ExperienceCard(pe: ProfessionalExperience): (card: Card)
    ensures card.key == ExperienceKey(pe) && |card.chipKeys| == |pe.tech_stack|
    ensures forall i :: 0 <= i < |pe.tech_stack| && pe.tech_stack[i].Some? ==> card.chipKeys[i] == pe.tech_stack[i].value
    ensures forall i :: 0 <= i < |pe.tech_stack| && pe.tech_stack[i].None? ==> card.chipKeys[i] == "pe-tech-" + NatToString(i)
  {
    Card(ExperienceKey(pe), ChipKeys(ExperienceChipPrefix, pe.tech_stack))
  }

  /** `ProjectTab`: one card per project, in order. */
  function ProjectTab(projects: seq<Project>): (cards: seq<Card>)
    ensures |cards| == |projects|
    ensures forall i :: 0 <= i < |projects| ==> cards[i].key == ProjectKey(projects[i])
    ensures forall i :: 0 <= i < |projects| ==> cards[i].chipKeys == ChipKeys(ProjectChipPrefix, projects[i].tech_stack)
  {
    seq(|projects|, i requires 0 <= i < |projects| => ProjectCard(projects[i]))
  }

  /** `ProfessionalExperienceTab`: one card per experience, in order. */
  function ExperienceTab(experiences: seq<ProfessionalExperience>): (cards: seq<Card>)
    ensures |cards| == |experiences|
    ensures forall i :: 0 <= i < |experiences| ==> cards[i].key == ExperienceKey(experiences[i])
    ensures forall i :: 0 <= i < |experiences| ==> cards[i].chipKeys == ChipKeys(ExperienceChipPrefix, experiences[i].tech_stack)
  {
    seq(|experiences|, i requires 0 <= i < |experiences| => ExperienceCard(experiences[i]))
  }

  /** The College tab shows the record iff one is defined (an empty record included), else "Please Wait". */
  function CollegePane(college: Option<College>): (pane: Pane<CollegeView>)
    ensures pane.Content? <==> college.Some?
    ensures pane.Placeholder? ==> pane.message == PleaseWait
    ensures pane.Content? ==> pane.body == CollegeDetails(CollegeRows(college.value))
  {
    if college.Some? then Content(CollegeTab(college)) else Placeholder(PleaseWait)
  }

  /** The Project tab shows cards iff there is at least one project, else "Please Wait". */
  function ProjectPane(projects: seq<Project>): (pane: Pane<seq<Card>>)
    ensures pane.Content? <==> |projects| > 0
    ensures pane.Placeholder? ==> pane.message == PleaseWait
    ensures pane.Content? ==> pane.body == ProjectTab(projects)
  {
    if |projects| > 0 then Content(ProjectTab(projects)) else Placeholder(PleaseWait)
  }

  /** The Professional Experience tab shows cards iff there is at least one entry, else "Loading...". */
  function ExperiencePane(experiences: seq<ProfessionalExperience>): (pane: Pane<seq<Card>>)
    ensures pane.Content? <==> |experiences| > 0
    ensures pane.Placeholder? ==> pane.message == Loading
    ensures pane.Content? ==> pane.body == ExperienceTab(experiences)
  {
    if |experiences| > 0 then Content(ExperienceTab(experiences)) else Placeholder(Loading)
  }
}
