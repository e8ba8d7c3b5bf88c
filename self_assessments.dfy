/** create_self_assessments.py: one end-of-quarter self-assessment per student of the Studio
    Database, named after the student, with its Basic Info tab and its Sprint tab filled in from
    the student's record when asked to. */
module SelfAssessments {
  import opened Wrappers
  import opened Text
  import opened Roster
  import opened StudioDb
  import opened Sheets
  import opened Assessments

  // ---------------------------------------------------------------------------------------------
  // File name
  // ---------------------------------------------------------------------------------------------

  const FilenameSuffix: string := ". -- HCI Studio Self-Assessment"

  /** The name of a student's self-assessment file: the first name, a space, the last initial
      and the suffix; an `IndexError` for a name that is empty or ends with a space. */
  function Filename(name: string): (r: Result<string>)
    ensures r.Ok? <==> HasInitial(name)
    ensures r.Err? ==> r.error == IndexError
    ensures r.Ok? ==> AfterLast(name, ' ') < |name|
                      && r.value == name[..FirstIndex(name, ' ')] + " " + [name[AfterLast(name, ' ')]]
                                    + ". -- HCI Studio Self-Assessment"
  {
    StudentFilenameFails(name, FilenameSuffix);
    if HasInitial(name) then
      StudentFilenameParts(name, FilenameSuffix);
      StudentFilename(name, FilenameSuffix)
    else
      StudentFilename(name, FilenameSuffix)
  }

  // ---------------------------------------------------------------------------------------------
  // Basic Info tab
  // ---------------------------------------------------------------------------------------------

  const BasicInfoRange: ColumnRange := ColumnRange('B', 2, 7)
  const FinalPresentationPlaceholder: string := "final presentation link"

  /** The update of the Basic Info tab: name, email, team and members, the design log
      placeholder, the progress map link and the final presentation placeholder, one per row. */
  function BasicInfoUpdate(name: string, rec: StudioRecord): Update {
    var team := rec.teamInfo;
    Update(BasicInfoRange,
      [ [name],
        [rec.emailAddress],
        [TeamLabel(team.teamName, team.teamMembers)],
        [DesignLogPlaceholder],
        [ProgressMapCell(rec.individualProgressMapLink)],
        [FinalPresentationPlaceholder] ])
  }

  /** The six rows fill B2:B7, one cell each. */
  lemma BasicInfoFits(name: string, rec: StudioRecord)
    ensures Fits(BasicInfoUpdate(name, rec))
  {
  }

  /** What can be read back from the Basic Info tab: B2 is the student's name and B3 the email;
      B4 names the team and, when no member name holds `;`, lists exactly its members; B6 is
      never blank and is the student's progress map link whenever there is one. */
  lemma BasicInfoReadsBack(name: string, rec: StudioRecord)
    requires |rec.teamInfo.teamMembers| >= 1
    requires forall i :: 0 <= i < |rec.teamInfo.teamMembers| ==> ';' !in rec.teamInfo.teamMembers[i]
    ensures var rows := BasicInfoUpdate(name, rec).rows;
            && rows[0][0] == name
            && rows[1][0] == rec.emailAddress
            && |rows[2][0]| >= |rec.teamInfo.teamName| + 3
            && rows[2][0][..|rec.teamInfo.teamName|] == rec.teamInfo.teamName
            && LabelMembers(rows[2][0], rec.teamInfo.teamName) == rec.teamInfo.teamMembers
            && rows[4][0] != ""
            && (rec.individualProgressMapLink != "" ==> rows[4][0] == rec.individualProgressMapLink)
  {
    TeamLabelMembers(rec.teamInfo.teamName, rec.teamInfo.teamMembers);
  }

  // ---------------------------------------------------------------------------------------------
  // Sprint tab
  // ---------------------------------------------------------------------------------------------

  const SprintRange: ColumnRange := ColumnRange('B', 2, 10)
  const SprintWeeks: nat := 9
  const MissingLinkPlaceholder: string := "enter here"

  /** A week's link, or a placeholder when the roster cell was empty. */
  function SprintCell(link: string): (cell: string)
    ensures cell != ""
    ensures link != "" ==> cell == link
  {
    if link != "" then link else MissingLinkPlaceholder
  }

  /** The row the first template named for `week` contributes; no row when there is none. */
  function WeekRows(templates: seq<Template>, week: nat): seq<seq<string>> {
    match FirstNamed(templates, WeekTemplateName(week))
    case Some(t) => [[SprintCell(t.link)]]
    case None => []
  }

  /** The rows of weeks 1 to `w`, in week order. */
  function SprintRowsUpTo(templates: seq<Template>, w: nat): seq<seq<string>> {
    if w == 0 then [] else SprintRowsUpTo(templates, w - 1) + WeekRows(templates, w)
  }

  /** The update of the Sprint tab, written from B2 down. */
  function SprintUpdate(templates: seq<Template>): Update {
    Update(SprintRange, SprintRowsUpTo(templates, SprintWeeks))
  }

  /** `populate_sprints`: for each week, the first template of that week's name, if any. */
  method PopulateSprints(templates: seq<Template>) returns (u: Update)
    ensures u == SprintUpdate(templates)
  {
    var rows: seq<seq<string>> := [];
    for week := 1 to SprintWeeks + 1
      invariant rows == SprintRowsUpTo(templates, week - 1)
    {
      var name := WeekTemplateName(week);
      ghost var found := false;
      for j := 0 to |templates|
        invariant forall k :: 0 <= k < j ==> templates[k].name != name
        invariant rows == SprintRowsUpTo(templates, week - 1)
      {
        if templates[j].name == name {
          var link := templates[j].link;
          FirstNamedAt(templates, name, j);
          rows := rows + [[if link != "" then link else MissingLinkPlaceholder]];
          found := true;
          break;
        }
      }
      if !found {
        assert FirstNamed(templates, name) == None;
      }
      assert rows == SprintRowsUpTo(templates, week);
    }
    u := Update(SprintRange, rows);
  }

  /** Number of weeks among 1 to `w` that have a template. */
  function WeeksPresent(templates: seq<Template>, w: nat): (n: nat)
    ensures n <= w
  {
    if w == 0 then 0
    else WeeksPresent(templates, w - 1) + (if FirstNamed(templates, WeekTemplateName(w)).Some? then 1 else 0)
  }

  predicate AllWeeksPresent(templates: seq<Template>, w: nat) {
    forall k :: 1 <= k <= w ==> FirstNamed(templates, WeekTemplateName(k)).Some?
  }

  /** One row per week that has a template, so never more rows than weeks, and as many only
      when every week has one. */
  lemma {:induction false} SprintRowCount(templates: seq<Template>, w: nat)
    ensures |SprintRowsUpTo(templates, w)| == WeeksPresent(templates, w)
    ensures WeeksPresent(templates, w) == w <==> AllWeeksPresent(templates, w)
  {
    SprintRowsPerWeek(templates, w);
    WeeksPresentAll(templates, w);
  }

  lemma {:induction false} SprintRowsPerWeek(templates: seq<Template>, w: nat)
    ensures |SprintRowsUpTo(templates, w)| == WeeksPresent(templates, w)
  {
    if w > 0 {
      SprintRowsPerWeek(templates, w - 1);
    }
  }

  lemma {:induction false} WeeksPresentAll(templates: seq<Template>, w: nat)
    ensures WeeksPresent(templates, w) == w <==> AllWeeksPresent(templates, w)
  {
    if w > 0 {
      WeeksPresentAll(templates, w - 1);
      var present := FirstNamed(templates, WeekTemplateName(w)).Some?;
      assert WeeksPresent(templates, w) == WeeksPresent(templates, w - 1) + (if present then 1 else 0);
      if AllWeeksPresent(templates, w - 1) && present {
        forall k | 1 <= k <= w
          ensures FirstNamed(templates, WeekTemplateName(k)).Some?
        {
          if k < w {
            assert 1 <= k <= w - 1;
          }
        }
      }
    }
  }

  /** Every row is one cell, and no cell is blank. */
  lemma {:induction false} SprintCellsFilled(templates: seq<Template>, w: nat)
    ensures forall i :: 0 <= i < |SprintRowsUpTo(templates, w)| ==>
              |SprintRowsUpTo(templates, w)[i]| == 1 && SprintRowsUpTo(templates, w)[i][0] != ""
  {
    if w > 0 {
      SprintCellsFilled(templates, w - 1);
    }
  }

  /** When every week has a template, the row of week `k` is that week's link. */
  lemma {:induction false} SprintRowsAligned(templates: seq<Template>, w: nat)
    requires AllWeeksPresent(templates, w)
    ensures |SprintRowsUpTo(templates, w)| == w
    ensures forall k :: 1 <= k <= w ==>
              SprintRowsUpTo(templates, w)[k - 1] == [SprintCell(FirstNamed(templates, WeekTemplateName(k)).value.link)]
  {
    if w > 0 {
      assert AllWeeksPresent(templates, w - 1);
      SprintRowsAligned(templates, w - 1);
      var prev := SprintRowsUpTo(templates, w - 1);
      var rows := SprintRowsUpTo(templates, w);
      assert rows[..w - 1] == prev;
      forall k | 1 <= k < w
        ensures rows[k - 1] == [SprintCell(FirstNamed(templates, WeekTemplateName(k)).value.link)]
      {
        assert rows[k - 1] == prev[k - 1];
      }
    }
  }

  /** The sprint rows fill B2:B10 exactly when each of the nine weeks has a template. */
  lemma SprintUpdateFits(templates: seq<Template>)
    ensures Fits(SprintUpdate(templates)) <==> AllWeeksPresent(templates, SprintWeeks)
  {
    SprintRowCount(templates, SprintWeeks);
    SprintCellsFilled(templates, SprintWeeks);
  }

  /** A missing week moves the later links up: with only a week 2 template, its link is written
      to B2, the cell of week 1. */
  lemma MissingWeekShiftsRows(link: string)
    requires link != ""
    ensures SprintUpdate([Template(WeekTemplateName(2), link)]).rows == [[link]]
    ensures FirstNamed([Template(WeekTemplateName(2), link)], WeekTemplateName(1)).None?
  {
    var templates := [Template(WeekTemplateName(2), link)];
    forall k | 1 <= k <= SprintWeeks && k != 2
      ensures WeekRows(templates, k) == []
    {
      WeekNamesDiffer(2, k);
    }
    assert SprintRowsUpTo(templates, 1) == [];
    assert SprintRowsUpTo(templates, 2) == [[link]];
    assert SprintRowsUpTo(templates, 3) == [[link]];
    assert SprintRowsUpTo(templates, 4) == [[link]];
    assert SprintRowsUpTo(templates, 5) == [[link]];
    assert SprintRowsUpTo(templates, 6) == [[link]];
    assert SprintRowsUpTo(templates, 7) == [[link]];
    assert SprintRowsUpTo(templates, 8) == [[link]];
  }

  // ---------------------------------------------------------------------------------------------
  // Generating the files
  // ---------------------------------------------------------------------------------------------

  /** Every one of the first `n` students has a file name. */
  predicate NamedUpTo(db: Database, n: nat)
    requires n <= |db|
  {
    forall k :: 0 <= k < n ==> HasInitial(db[k].key)
  }

  /** The lines printed for the first `n` students. */
  function LinesUpTo(db: Database, copyIds: seq<string>, n: nat): (lines: seq<string>)
    requires n <= |db| == |copyIds| && NamedUpTo(db, n)
    ensures |lines| == n
  {
    if n == 0 then []
    else
      StudentFilenameFails(db[n - 1].key, FilenameSuffix);
      LinesUpTo(db, copyIds, n - 1) + [OutputLine(Filename(db[n - 1].key).value, FileUrl(copyIds[n - 1]))]
  }

  /** Line `i` names student `i`'s file and gives the URL of copy `i`. */
  lemma {:induction false} LinesUpToAt(db: Database, copyIds: seq<string>, n: nat, i: nat)
    requires n <= |db| == |copyIds| && NamedUpTo(db, n) && i < n
    ensures Filename(db[i].key).Ok?
    ensures LinesUpTo(db, copyIds, n)[i] == OutputLine(Filename(db[i].key).value, FileUrl(copyIds[i]))
  {
    StudentFilenameFails(db[i].key, FilenameSuffix);
    if i < n - 1 {
      LinesUpToAt(db, copyIds, n - 1, i);
    }
  }

  lemma UpdatesStep(db: Database, i: nat)
    requires i < |db|
    ensures UpdatesUpTo(db, i + 1)
            == UpdatesUpTo(db, i) + [BasicInfoUpdate(db[i].key, db[i].value), SprintUpdate(db[i].value.teamInfo.weeklyTemplates)]
  {
  }

  lemma LinesStep(db: Database, copyIds: seq<string>, i: nat)
    requires i < |db| == |copyIds| && NamedUpTo(db, i) && Filename(db[i].key).Ok?
    ensures NamedUpTo(db, i + 1)
    ensures LinesUpTo(db, copyIds, i + 1)
            == LinesUpTo(db, copyIds, i) + [OutputLine(Filename(db[i].key).value, FileUrl(copyIds[i]))]
  {
    StudentFilenameFails(db[i].key, FilenameSuffix);
  }

  /** The updates written for the first `n` students, two per student. */
  function UpdatesUpTo(db: Database, n: nat): (us: seq<Update>)
    requires n <= |db|
    ensures |us| == 2 * n
  {
    if n == 0 then []
    else
      var e := db[n - 1];
      UpdatesUpTo(db, n - 1) + [BasicInfoUpdate(e.key, e.value), SprintUpdate(e.value.teamInfo.weeklyTemplates)]
  }

  /** `generate_self_assessment`: for each student in order, derive the file name, copy the
      template (the copy's id is `copyIds[i]`), fill in the two tabs when `shouldPopulate`, and
      print the name and URL. The first name that has no file name stops the run with an
      `IndexError`; the students before it have their files. */
  method GenerateSelfAssessments(db: Database, copyIds: seq<string>, shouldPopulate: bool)
    returns (lines: seq<string>, updates: seq<Update>, failure: Option<Error>)
    requires |copyIds| == |db|
    ensures |lines| <= |db| && NamedUpTo(db, |lines|)
    ensures failure.None? <==> |lines| == |db|
    ensures failure.Some? ==> failure.value == IndexError && !HasInitial(db[|lines|].key)
    ensures lines == LinesUpTo(db, copyIds, |lines|)
    ensures updates == if shouldPopulate then UpdatesUpTo(db, |lines|) else []
  {
    lines, updates, failure := [], [], None;
    var i := 0;
    while i < |db| && failure.None?
      invariant i <= |db| && |lines| == i && NamedUpTo(db, i)
      invariant lines == LinesUpTo(db, copyIds, i)
      invariant updates == if shouldPopulate then UpdatesUpTo(db, i) else []
      invariant failure.Some? ==> i < |db| && failure.value == IndexError && !HasInitial(db[i].key)
      decreases |db| - i, failure.None?
    {
      var student := db[i];
      var filename := Filename(student.key);
      if filename.Err? {
        StudentFilenameFails(student.key, FilenameSuffix);
        failure := Some(filename.error);
      } else {
        var url := FileUrl(copyIds[i]);
        if shouldPopulate {
          var sprints := PopulateSprints(student.value.teamInfo.weeklyTemplates);
          UpdatesStep(db, i);
          updates := updates + [BasicInfoUpdate(student.key, student.value), sprints];
        }
        LinesStep(db, copyIds, i);
        lines := lines + [OutputLine(filename.value, url)];
        i := i + 1;
      }
    }
  }
}
