# HCI Studio roster and self-assessment scripts, in Dafny

This project models the data handling of four scripts that support an HCI studio course. The
scripts work on a Google Sheets roster and on Google Drive copies of template spreadsheets.

- **roster_to_json.py** reads the Student Info and Team Info worksheets of the Studio Roster.
  - Each sheet is a header row followed by data rows.
  - Each sheet becomes a dictionary of keyed records, with the header classified against a
    fixed mapping.
  - The two dictionaries are joined into the Studio Database: every student carries their
    team's templates, name and member list.
  - The database is exported as a list of records, each tagged with its `name`.
- **create_self_assessments.py** creates one end-of-quarter self-assessment per student.
  - The file is named from the student's first name and last initial.
  - It fills the Basic Info tab (B2:B7) and the Sprint tab (B2:B10) from the student's record,
    and prints a line with the file name and URL.
- **create_mid-quarter_self-assessment.py** creates the same kind of file with a different suffix.
  - It fills a seven-row Basic Info tab (B2:B8).
  - That tab includes a learning goal and the link of the team's fifth weekly template.
- **create_weekly_templates.py** makes one copy of a weekly template per team.
  - Each copy is named `[team] template`.
  - It prints a line per copy.

Python dictionaries are modelled as association lists that keep insertion order
(`Dicts.Dict`). Assigning to a present key keeps its position; assigning to a new key appends it.
The exceptions the scripts raise on bad data, `IndexError` and `KeyError`, are the `Error` of a
`Result`. The loops that build state step by step are methods, and each method is proved equal
to a reference function; the properties are then lemmas about those functions. These loops are
header classification, row parsing, grouping team members, the join, export, the sprint lookup
and the self-assessment driver.

Files: `wrappers.dfy` (Option, Error, Result), `text.dfy` (strip, split, join, the Week header
pattern), `dicts.dfy`, `roster.dfy`, `studio_db.dfy`, `sheets.dfy` (ranges, updates, file URLs),
`assessments.dfy` (what both self-assessment scripts share), `self_assessments.dfy`,
`mid_quarter.dfy`, `weekly_templates.dfy`.

## Model

| member | source | states |
|---|---|---|
| Roster.ClassifyHeader | roster_to_json.py:36-43 | The column index holds exactly the columns whose header is a mapping key, each with its header text. The exclude list is the other header texts, in header order. |
| Roster.HeaderClassifiedOnce | roster_to_json.py:39-43 | A column is indexed iff its header is recognised. A text is excluded iff it occurs in the header and is not recognised. |
| Roster.HeaderClassificationCount | roster_to_json.py:120-124 | Indexed columns plus excluded texts number exactly the header cells: each cell is classified once. |
| Roster.StudentFieldOf | roster_to_json.py:25-32 | A header has a target exactly when it is one of the six Student Info mapping keys. |
| Roster.FieldHeader | roster_to_json.py:25-32 | Every target is mapped from one Student Info mapping key, which maps back to it: the mapping is one to one. |
| Roster.LastFieldCellIsLastColumn | roster_to_json.py:65-79 | A field's cell is absent iff no column maps to the field; otherwise it is the cell of the last column that does, so a later column overwrites an earlier one. |
| Roster.LastFieldCellIsLastCell | roster_to_json.py:69-79 | The cell of a target is the cell of the last column with the header that target is mapped from, as the loop compares header texts. |
| Roster.LastCellIsLastColumn | roster_to_json.py:154-156 | The Team Name cell is absent iff no column has that header; otherwise it is the cell of the last such column. |
| Roster.SplitAvailability | roster_to_json.py:74-76 | The availability list has one more time than the cell has commas. |
| Roster.ParseStudentRow | roster_to_json.py:53-79 | Parsing a row gives the raw last Name cell as key and, for each scalar field, the trimmed last cell of its column or `""`. Availability is the split cells of every availability column, in order. |
| Roster.AvailabilityOfOneColumn | roster_to_json.py:74-76 | With one availability column, the list is that cell split on commas and trimmed, one more element than commas. |
| Roster.AvailabilityWithoutColumn | roster_to_json.py:59 | Without an availability column the list keeps its default `[]`. |
| Roster.EmptyAvailabilityCell | roster_to_json.py:75 | An empty availability cell gives `[""]`, not `[]`. |
| Roster.MissingColumnsKeepDefaults | roster_to_json.py:53-62 | A scalar target without a column in the row keeps its default: key `""`, field `""`. |
| Roster.ParseTeamRow | roster_to_json.py:134-159 | Parsing a team row gives the trimmed last Team Name cell as key. The templates are one `{header, trimmed cell}` per Week column, in column order. |
| Roster.TeamNameIsNotWeekHeader | roster_to_json.py:147-156 | "Team Name" does not match the Week pattern, so the two branches never overlap. |
| Roster.TemplatesComeFromWeekColumns | roster_to_json.py:147-153 | Every template has a Week header and comes from a column with that header, with that column's trimmed cell as link. |
| Roster.WeekColumnLink | roster_to_json.py:147-153 | Looking a Week header up among the templates gives the trimmed cell of the first column with that header. |
| Roster.FirstColumnIsFirst | roster_to_json.py:147-153 | The column WeekColumnLink starts from: none iff no column has the header, otherwise a column with the header before which no column has it. |
| Roster.WeekColumnAbsent | roster_to_json.py:147-153 | A Week header that no column has is not found among the templates. |
| Roster.FirstNamed | create_self_assessments.py:115-122 | The template found has the name looked for and is in the list; when none is found, no template has the name. |
| Roster.FirstNamedAt | create_self_assessments.py:115-122 | A template preceded only by templates of other names is the one found. |
| Roster.FetchStudentInfo | roster_to_json.py:20-85 | A sheet without a header row is an `IndexError`; otherwise every data row is put under its key, in row order. |
| Roster.FetchTeamInfo | roster_to_json.py:97-165 | As for students, with the team rows. |
| Roster.StudentInfoKeysAndOverwrite | roster_to_json.py:82 | The keys are the row keys in order of first appearance, each once, and each key holds the record of its last row. |
| Dicts.PutKeys | roster_to_json.py:82 | Assigning to a present key keeps the keys in order; assigning to a new key appends an entry. |
| Dicts.Put | roster_to_json.py:82 | `d[k] = v`: the dictionary grows by one entry exactly when the key is new (PutKeys and PutGet state the keys and values after it). |
| Dicts.PutGet | roster_to_json.py:82 | After an assignment the key gives the new value and every other key what it gave before. |
| Dicts.FromEntriesGet | roster_to_json.py:162 | A key assigned several times keeps its last value. |
| Dicts.FromEntriesKeys | roster_to_json.py:162 | The keys are those assigned, each once, in order of first assignment. |
| Dicts.FirstOccurrencesMembers | roster_to_json.py:162 | The key list holds exactly the assigned keys, without repetition. |
| Dicts.FromEntriesOfValid | roster_to_json.py:214-220 | Re-inserting a dictionary's entries gives back the dictionary. |
| StudioDb.GroupTeamMembers | roster_to_json.py:180-182 | Fails with a `KeyError` for the first student whose team is unknown. Otherwise it maps exactly the known teams, each to its students' keys in student order (`[]` for a team without students). |
| StudioDb.MembersAreTeamStudents | roster_to_json.py:181-182 | A name is a member of a team iff some student with that key has that team. |
| StudioDb.MembersDistinct | roster_to_json.py:181-182 | No member list repeats a name. |
| StudioDb.MissingTeamIsFirst | roster_to_json.py:182 | No team is missing iff every student's team is known; otherwise the missing team reported is that of the first student with an unknown team. |
| StudioDb.MissingTeamStays | roster_to_json.py:182 | The first failure stops the grouping: later students do not change the error. |
| StudioDb.CreateStudioDb | roster_to_json.py:177-199 | The join fails as the grouping does. Otherwise each student, in order, gets the record with its own fields and its team's templates, name and members. |
| StudioDb.StudioDbFailsOnMissingTeam | roster_to_json.py:182 | The join fails iff some student's team is not a team key, with a `KeyError` naming the first such team. |
| StudioDb.StudioDbKeepsStudents | roster_to_json.py:185-196 | The database has the students' keys in order. Each record keeps the student's fields, has `team_info.team_name` equal to the removed team name, and has that team's templates. |
| StudioDb.StudioDbMembers | roster_to_json.py:191-192 | A student's team members are exactly the database keys whose record names the same team. |
| StudioDb.StudioDbSharesTeamInfo | roster_to_json.py:188-196 | Two students of one team carry equal team records. |
| StudioDb.ExportStudioDb | roster_to_json.py:211-220 | One element per database entry, in order, each being the record with `name` set to its key. |
| StudioDb.ExportRoundTrip | roster_to_json.py:214-220 | Keying the exported list by `name` gives back the database. |
| StudioDb.BuildStudioDb | roster_to_json.py:246-250 | The pipeline: a missing header row of the student sheet, then of the team sheet, then the join's error, else the joined database. |
| StudioDb.StudioDatabaseValid | roster_to_json.py:246-250 | The database the pipeline builds has no key twice. |
| StudioDb.StudioDatabaseExportRoundTrip | roster_to_json.py:202-220 | Exporting the database the pipeline builds and keying the list by `name` gives the database back. |
| Text.TrimSpec | roster_to_json.py:79 | The trimmed string is the part of the cell from its first non-space on: everything cut before it and after it is whitespace, and it starts and ends with a non-space. |
| Text.TrimIdempotent | roster_to_json.py:79 | Trimming a trimmed cell changes nothing. |
| Text.Trim | roster_to_json.py:79 | `str.strip`: the string without its leading and then its trailing whitespace, as TrimSpec and TrimIdempotent characterise it. |
| Text.SplitLength | roster_to_json.py:75 | Splitting gives one more piece than there are separators. |
| Text.SplitPiecesLackSeparator | roster_to_json.py:75 | No piece contains the separator. |
| Text.Split | roster_to_json.py:75 | `str.split` on one character: at least one piece, one more than the separators (SplitLength), none holding the separator, and joined back they give the string (JoinSplit). |
| Text.Join | create_self_assessments.py:82 | `str.join`: the parts with the separator between consecutive ones; splitting a join of separator-free parts gives the parts back (SplitJoin). |
| Text.JoinSplit | roster_to_json.py:75 | Joining the pieces with the separator gives back the string. |
| Text.SplitJoin | create_self_assessments.py:82 | Splitting a join of separator-free parts gives back the parts. |
| Text.SplitFirst | create_self_assessments.py:28-30 | The first piece is the string before its first separator. |
| Text.SplitLast | create_self_assessments.py:28-30 | The last piece is the string after its last separator. |
| Text.LastPieceEmpty | create_self_assessments.py:28-30 | The last piece is empty iff the string is empty or ends with the separator. |
| Text.FirstIndexIsFirst | create_self_assessments.py:28-30 | The index found is that of the first occurrence, or the length when there is none. |
| Text.AfterLastIsLast | create_self_assessments.py:28-30 | The index found follows the last occurrence, or is 0 when there is none. |
| Text.NatToString | create_self_assessments.py:112 | A week number prints as a non-empty run of digits, a number below 10 as its single digit. |
| Text.NatToStringValue | create_self_assessments.py:112 | The printed digits denote the number printed. |
| Text.WeekTemplateNameMatches | roster_to_json.py:147-149 | Every `Week {i} Template` name matches the start-anchored Week header pattern. |
| Text.IsWeekTemplateHeader | roster_to_json.py:148-149 | The start-anchored pattern `Week \d+ Template`: a matching header starts with "Week " and a digit and is long enough to hold " Template" after it; text after the match is allowed (WeekTemplateNameMatches, TeamNameIsNotWeekHeader). |
| Text.StartsWith | roster_to_json.py:148-149 | A string begins with a literal exactly when it is at least as long and its prefix of that length is the literal. |
| Roster.WeekNamesAreTeamHeaders | roster_to_json.py:102-113 | The names the Sprint tab looks up for weeks 1 to 9 are keys of the Team Info mapping, so a column with such a header is indexed and, matching the pattern, becomes a template. |
| Text.WeekNamesDiffer | create_self_assessments.py:111-112 | The names of two different weeks from 1 to 9 differ. |
| Assessments.StudentFilename | create_self_assessments.py:28-30 | The first piece of the name split on spaces, a space, the first character of the last piece and the suffix; an `IndexError` when the last piece is empty. StudentFilenameFails and StudentFilenameParts state when it fails and what it gives. |
| Assessments.StudentFilenameFails | create_self_assessments.py:28-30 | The file name exists iff the name is non-empty and does not end with a space; otherwise it is an `IndexError`. |
| Assessments.StudentFilenameParts | create_self_assessments.py:28-30 | The file name is the name up to its first space, a space, the character after its last space, and the suffix. |
| Assessments.StudentFilenameKeepsFirstName | create_self_assessments.py:28-30 | The first space-separated piece of the file name is the student's first name. |
| SelfAssessments.Filename | create_self_assessments.py:28-30 | StudentFilename with the suffix ". -- HCI Studio Self-Assessment": an `IndexError` exactly when the name is empty or ends with a space, otherwise the name up to its first space, a space, the character after its last space, and the suffix. |
| MidQuarter.Filename | create_mid-quarter_self-assessment.py:34-37 | StudentFilename with the suffix ". -- Mid-Quarter Self-Assessment": an `IndexError` exactly when the name is empty or ends with a space, otherwise the name up to its first space, a space, the character after its last space, and the suffix. |
| Assessments.FilenameOfJaneDoe | create_self_assessments.py:28-30 | "Jane Doe" gets "Jane D" and then the suffix: "Jane D. -- HCI Studio Self-Assessment" here, and "Jane D. -- Mid-Quarter Self-Assessment" with the mid-quarter suffix. |
| Assessments.TeamLabel | create_self_assessments.py:80-82 | The team cell is at least three characters longer than the team name. |
| Assessments.TeamLabelMembers | create_self_assessments.py:80-82 | The team cell starts with the team name, and the members, joined by `"; "`, can be read back in order when no name holds `;`. |
| Assessments.JoinWithSpace | create_self_assessments.py:82 | Joining with `"; "` is joining with `;` after a space is put before every member but the first. |
| Assessments.ProgressMapCell | create_self_assessments.py:92 | The progress-map cell is never empty, and equals the link whenever the link is non-empty. |
| Sheets.FileUrl | create_self_assessments.py:37 | The spreadsheet URL of a file id; IdOfFileUrl reads the id back from it. |
| Sheets.IdOfFileUrl | create_self_assessments.py:37 | The file id can be read back from the file URL. |
| Sheets.FileUrlOfId | create_self_assessments.py:37 | A URL whose id can be read is the URL of that id. |
| SelfAssessments.BasicInfoUpdate | create_self_assessments.py:79-97 | The write of B2:B7: name, email, team cell, "design log link", the progress-map cell and "final presentation link", one cell per row (BasicInfoFits, BasicInfoReadsBack). |
| SelfAssessments.BasicInfoFits | create_self_assessments.py:87-97 | The Basic Info update fills B2:B7 exactly, one cell per row. |
| SelfAssessments.BasicInfoReadsBack | create_self_assessments.py:79-94 | For a team with at least one member and no `;` in any member name: B2 is the name and B3 the email, B4 starts with the team name and lists the members in order, and B6 is never blank and is the progress-map link when there is one. |
| SelfAssessments.SprintCell | create_self_assessments.py:118-119 | A sprint cell is never empty, and equals the link when the link is non-empty. |
| SelfAssessments.PopulateSprints | create_self_assessments.py:110-125 | The sprint update is, for weeks 1 to 9 in order, the cell of the first template of that week's name, with no row for a week without one. |
| SelfAssessments.WeeksPresent | create_self_assessments.py:111 | At most `w` of weeks 1 to `w` have a template. |
| SelfAssessments.SprintRowCount | create_self_assessments.py:110-122 | There is one row per week that has a template, so as many rows as weeks iff every week has one. |
| SelfAssessments.SprintCellsFilled | create_self_assessments.py:119 | Every sprint row is one non-empty cell. |
| SelfAssessments.SprintRowsAligned | create_self_assessments.py:110-122 | When every week has a template, row `k` holds week `k`'s link. |
| SelfAssessments.SprintUpdateFits | create_self_assessments.py:125 | The sprint rows fill B2:B10 exactly iff all nine weeks have a template. |
| SelfAssessments.MissingWeekShiftsRows | create_self_assessments.py:110-125 | A missing week shifts later links up: with only a week-2 template, its link lands in B2, week 1's cell. |
| SelfAssessments.LinesUpTo | create_self_assessments.py:44 | There is one printed line per student processed. |
| SelfAssessments.LinesUpToAt | create_self_assessments.py:44 | Line `i` is student `i`'s file name, `": "` and the URL of copy `i`. |
| SelfAssessments.UpdatesUpTo | create_self_assessments.py:40-41 | Two updates, Basic Info then Sprint, per student populated. |
| SelfAssessments.GenerateSelfAssessments | create_self_assessments.py:26-44 | Students are processed in order; every processed student has a file name and a printed line. The run stops at the first student without a file name with an `IndexError`, or processes everyone. Both tabs are updated for each processed student only when populating is asked for. |
| MidQuarter.BasicInfoUpdate | create_mid-quarter_self-assessment.py:94-116 | The write of B2:B8, or a `KeyError` for `learning_goals` when the record has no learning goal, then an `IndexError` when the team has fewer than five templates (BasicInfoOutcome, BasicInfoFromEndOfQuarter). |
| MidQuarter.BasicInfoOutcome | create_mid-quarter_self-assessment.py:94-116 | The update exists iff there is a learning goal and at least five templates. A missing goal is reported first, as a `KeyError` for `learning_goals`; too few templates is an `IndexError`. A successful update fills B2:B8. |
| MidQuarter.BasicInfoFromEndOfQuarter | create_mid-quarter_self-assessment.py:105-113 | The seven rows are the end-of-quarter rows with the learning goal inserted third and the fifth template's link in place of the final-presentation placeholder. |
| MidQuarter.LatestTemplateIsPositional | create_mid-quarter_self-assessment.py:102-104 | The link is taken by position: when week 5 has no template, B8 gets the fifth template's link, week 6's. |
| WeeklyTemplates.Filename | create_weekly_templates.py:27-29 | `"[" + team + "] " + template name`, the team verbatim; FilenameNamesTeam reads the team back from it. |
| WeeklyTemplates.FilenameNamesTeam | create_weekly_templates.py:27-29 | The team can be read back from its file name. |
| WeeklyTemplates.FilenameOfRed | create_weekly_templates.py:27-29 | "Red" and "Sprint Plan" give "[Red] Sprint Plan". |
| WeeklyTemplates.Line | create_weekly_templates.py:38-42 | The printed line is the file name, `": "` and the copy's spreadsheet URL, from which the copy's id reads back. |
| WeeklyTemplates.Filenames | create_weekly_templates.py:25-29 | One file name per team in the list. |
| WeeklyTemplates.FilenamesNameTeams | create_weekly_templates.py:25-29 | File name `i` is that of team `i` with the same template name, in list order. |
| WeeklyTemplates.FilenamesMatchTeams | create_weekly_templates.py:25-29 | Two file names are equal iff their teams are, so repeated teams are not merged. |
| WeeklyTemplates.LinesAreOutputLines | create_weekly_templates.py:36-42 | Line `i` is file name `i`, `": "` and the URL of copy `i`, and copy `i`'s id reads back from it. |
| WeeklyTemplates.Lines | create_weekly_templates.py:38-42 | One printed line per team, in list order, line `i` being file name `i`, `": "` and the URL of copy `i` (LinesAreOutputLines). |

## Left out

- Google authentication, opening sheets, reading worksheets, `worksheet.update` and `copy_file` are not modelled. A worksheet arrives as its rows of strings, an update is returned as a value, and the id of each copy is an input (`copyIds`, one per copy, in order). copy_gdrive_file.py is not part of this model.
- Printing is not modelled: the printed lines are returned. Command-line handling, `json.dump` and `json.dumps` are also left out.
- The printed warning listing excluded headers is not modelled; the exclude list itself is.
- The `json.loads(json.dumps(...))` copy at roster_to_json.py:177 is value semantics here. The student dictionary a caller passes can never change.
- StudioDb.StudioDbSharesTeamInfo: in the program, every student of a team holds the same team dictionary object, mutated in place, and the caller's `team_info_dict` is changed too (roster_to_json.py:188-196). The model gives each student an equal value and leaves the caller's dictionaries unchanged.
- StudioDb.ExportStudioDb: the program adds `name` to the database records themselves as it exports them (roster_to_json.py:216-217). The model builds new export records and leaves the database unchanged.
- Text.Trim removes a fixed set of ASCII whitespace (space, tab, line feed, carriage return, vertical tab, form feed), not every whitespace character Python's `str.strip` knows.
- Text.IsWeekTemplateHeader recognises `Week `, ASCII digits and ` Template` at the start of a header, as `re.match` does. Unicode digits are not recognised.
- The branch at roster_to_json.py:158-159 stores any other Team Info field. It cannot run, since every mapping key is "Team Name" or a Week header, so it has no counterpart.
- Assessments.TeamLabelMembers: the members can be read back only when no member name contains `;`, and the lemma requires this. With such a name the team cell is still built as the program builds it.
- MidQuarter.BasicInfoUpdate: the record the roster produces has no `learning_goals` field, so with the roster as the source the lookup always fails with a `KeyError`. The learning goal is an `Option` parameter to model a database that has it.
- The mid-quarter script's driver loop (create_mid-quarter_self-assessment.py:32-61) is not modelled. It repeats the end-of-quarter loop around the file name and the Basic Info update, both of which are modelled.
- WeeklyTemplates.Filenames: the per-team loop is modelled as a map from the team list to file names and lines. The copy made per team is not modelled.
- SelfAssessments.PopulateSprints: a week without a template gives no row, as the code does, so the links of the later weeks move up and no longer line up with B2:B10; only a week whose link is empty gets "enter here". The comment at create_self_assessments.py:117 speaks of "enter here" for a link that is not found, which the code does not do for a missing week. MissingWeekShiftsRows shows the shift.
- Integer sizes are not an issue: all counts are unbounded naturals, as Python's are.
