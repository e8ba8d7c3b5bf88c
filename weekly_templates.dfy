/** create_weekly_templates.py: one copy of a weekly template per project team, named after the
    team, and the line printed for each copy. */
module WeeklyTemplates {
  import opened Wrappers
  import opened Sheets

  /** `"[{team_name}] {template_name}"`, with the team name as given. */
  function Filename(team: string, templateName: string): string {
    "[" + team + "] " + templateName
  }

  /** The team a file name was made for, if the name has the shape `Filename` gives it for
      `templateName`. */
  function TeamOfFilename(filename: string, templateName: string): Option<string> {
    var tail := "] " + templateName;
    if |filename| >= 1 + |tail| && filename[0] == '[' && filename[|filename| - |tail|..] == tail
    then Some(filename[1..|filename| - |tail|])
    else None
  }

  /** The team can be read back from its file name. */
  lemma FilenameNamesTeam(team: string, templateName: string)
    ensures TeamOfFilename(Filename(team, templateName), templateName) == Some(team)
  {
    var filename := Filename(team, templateName);
    var tail := "] " + templateName;
    assert filename == "[" + team + tail;
    assert filename[|filename| - |tail|..] == tail;
    assert filename[1..|filename| - |tail|] == team;
  }

  /** "Red" and "Sprint Plan" give "[Red] Sprint Plan". */
  lemma FilenameOfRed()
    ensures Filename("Red", "Sprint Plan") == "[Red] Sprint Plan"
  {
  }

  /** The line printed for a team's copy: its file name, `": "` and the spreadsheet URL of the
      copy, from which the copy's id reads back. */
  function Line(team: string, templateName: string, id: string): (line: string)
    ensures var f := Filename(team, templateName);
            |line| >= |f| + 2 && line[..|f|] == f && line[|f|..|f| + 2] == ": "
            && IdOfUrl(line[|f| + 2..]) == Some(id)
  {
    var f := Filename(team, templateName);
    IdOfFileUrl(id);
    var line := OutputLine(f, FileUrl(id));
    assert line[|f| + 2..] == FileUrl(id);
    line
  }

  /** `generate_weekly_templates`: one file name per team, in the order of the list, repeated
      names included. */
  function Filenames(teams: seq<string>, templateName: string): (filenames: seq<string>)
    ensures |filenames| == |teams|
  {
    seq(|teams|, i requires 0 <= i < |teams| => Filename(teams[i], templateName))
  }

  /** The printed lines, the copy of team `i` having id `copyIds[i]`. */
  function Lines(teams: seq<string>, templateName: string, copyIds: seq<string>): (lines: seq<string>)
    requires |copyIds| == |teams|
    ensures |lines| == |teams|
  {
    seq(|teams|, i requires 0 <= i < |teams| => Line(teams[i], templateName, copyIds[i]))
  }

  /** Reading the team back from every file name gives the team list itself: one file per
      team, in order, with nothing merged or dropped. */
  lemma FilenamesNameTeams(teams: seq<string>, templateName: string)
    ensures forall i :: 0 <= i < |teams| ==>
              TeamOfFilename(Filenames(teams, templateName)[i], templateName) == Some(teams[i])
  {
    forall i | 0 <= i < |teams|
      ensures TeamOfFilename(Filenames(teams, templateName)[i], templateName) == Some(teams[i])
    {
      FilenameNamesTeam(teams[i], templateName);
    }
  }

  /** Two file names are equal exactly when their teams are: repeated teams give repeated
      names, different teams different names. */
  lemma FilenamesMatchTeams(teams: seq<string>, templateName: string, i: nat, j: nat)
    requires i < |teams| && j < |teams|
    ensures Filenames(teams, templateName)[i] == Filenames(teams, templateName)[j] <==> teams[i] == teams[j]
  {
    FilenameNamesTeam(teams[i], templateName);
    FilenameNamesTeam(teams[j], templateName);
  }

  /** Line `i` names team `i`'s file and gives the URL of copy `i`, from which copy `i`'s id
      reads back. */
  lemma LinesAreOutputLines(teams: seq<string>, templateName: string, copyIds: seq<string>)
    requires |copyIds| == |teams|
    ensures forall i :: 0 <= i < |teams| ==>
              Lines(teams, templateName, copyIds)[i]
              == OutputLine(Filenames(teams, templateName)[i], FileUrl(copyIds[i]))
    ensures forall i :: 0 <= i < |teams| ==>
              IdOfUrl(Lines(teams, templateName, copyIds)[i][|Filenames(teams, templateName)[i]| + 2..])
              == Some(copyIds[i])
  {
  }
}
