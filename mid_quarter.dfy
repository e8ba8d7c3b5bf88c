/** create_mid-quarter_self-assessment.py: the mid-quarter self-assessment of a student, its file
    name and its Basic Info tab, which is the only tab it fills in. */
module MidQuarter {
  import opened Wrappers
  import opened Roster
  import opened StudioDb
  import opened Sheets
  import opened Assessments
  import opened Text
  import SelfAssessments

  const FilenameSuffix: string := ". -- Mid-Quarter Self-Assessment"

  /** The name of a student's mid-quarter self-assessment file: the first name, a space, the last initial
      and the suffix; an `IndexError` for a name that is empty or ends with a space. */
  function Filename(name: string): (r: Result<string>)
    ensures r.Ok? <==> HasInitial(name)
    ensures r.Err? ==> r.error == IndexError
    ensures r.Ok? ==> AfterLast(name, ' ') < |name|
                      && r.value == name[..FirstIndex(name, ' ')] + " " + [name[AfterLast(name, ' ')]]
                                    + ". -- Mid-Quarter Self-Assessment"
  {
    StudentFilenameFails(name, FilenameSuffix);
    if HasInitial(name) then
      StudentFilenameParts(name, FilenameSuffix);
      StudentFilename(name, FilenameSuffix)
    else
      StudentFilename(name, FilenameSuffix)
  }

  const BasicInfoRange: ColumnRange := ColumnRange('B', 2, 8)
  const LearningGoalsKey: string := "learning_goals"
  /** Position in the team's weekly templates of the one whose link fills B8. */
  const LatestTemplateIndex: nat := 4

  /** The update of the Basic Info tab: name, email, learning goal, team and members, the design
      log placeholder, the progress map link and the link of the team's fifth weekly template.
      The student's record must have a learning goal (`learningGoal`; records built from the
      roster have none) and the team at least five weekly templates. */
  function BasicInfoUpdate(name: string, rec: StudioRecord, learningGoal: Option<string>): Result<Update> {
    var team := rec.teamInfo;
    if learningGoal.None? then Err(KeyError(LearningGoalsKey))
    else if |team.weeklyTemplates| <= LatestTemplateIndex then Err(IndexError)
    else Ok(Update(BasicInfoRange,
      [ [name],
        [rec.emailAddress],
        [learningGoal.value],
        [TeamLabel(team.teamName, team.teamMembers)],
        [DesignLogPlaceholder],
        [ProgressMapCell(rec.individualProgressMapLink)],
        [team.weeklyTemplates[LatestTemplateIndex].link] ]))
  }

  /** The update is made exactly when there is a learning goal and a fifth weekly template; a
      missing learning goal is reported first, as a `KeyError` for `learning_goals`, and too
      few templates as an `IndexError`. A successful update fills B2:B8. */
  lemma BasicInfoOutcome(name: string, rec: StudioRecord, learningGoal: Option<string>)
    ensures var r := BasicInfoUpdate(name, rec, learningGoal);
            && (r.Ok? <==> learningGoal.Some? && |rec.teamInfo.weeklyTemplates| >= 5)
            && (learningGoal.None? ==> r == Err(KeyError("learning_goals")))
            && (learningGoal.Some? && |rec.teamInfo.weeklyTemplates| < 5 ==> r == Err(IndexError))
            && (r.Ok? ==> Fits(r.value))
  {
  }

  /** The tab holds the end-of-quarter Basic Info cells with the learning goal inserted as the
      third row and, in place of the final presentation placeholder, the link of the team's
      fifth weekly template. */
  lemma BasicInfoFromEndOfQuarter(name: string, rec: StudioRecord, goal: string)
    requires |rec.teamInfo.weeklyTemplates| >= 5
    ensures BasicInfoUpdate(name, rec, Some(goal)).Ok?
    ensures var endRows := SelfAssessments.BasicInfoUpdate(name, rec).rows;
            BasicInfoUpdate(name, rec, Some(goal)).value.rows
            == endRows[..2] + [[goal]] + endRows[2..5] + [[rec.teamInfo.weeklyTemplates[4].link]]
  {
  }

  /** The link is taken by position: when week 5 has no template, B8 gets week 6's link. */
  lemma LatestTemplateIsPositional(name: string, rec: StudioRecord, goal: string, links: seq<string>)
    requires |links| == 5
    requires rec.teamInfo.weeklyTemplates
             == [ Template(WeekTemplateName(1), links[0]), Template(WeekTemplateName(2), links[1]),
                  Template(WeekTemplateName(3), links[2]), Template(WeekTemplateName(4), links[3]),
                  Template(WeekTemplateName(6), links[4]) ]
    ensures FirstNamed(rec.teamInfo.weeklyTemplates, WeekTemplateName(5)).None?
    ensures BasicInfoUpdate(name, rec, Some(goal)).Ok?
    ensures BasicInfoUpdate(name, rec, Some(goal)).value.rows[6] == [links[4]]
  {
    forall k | k in [1, 2, 3, 4, 6]
      ensures WeekTemplateName(k) != WeekTemplateName(5)
    {
      WeekNamesDiffer(k, 5);
    }
  }
}
