/** Parsing of the Student Info and Team Info worksheets of the Studio Roster into keyed records
    (`fetch_student_info` and `fetch_team_info` in roster_to_json.py). A worksheet arrives as the
    rows of strings a bulk read returns; its first row is the header. */
module Roster {
  import opened Wrappers
  import opened Text
  import opened Dicts

  type Sheet = seq<seq<string>>

  /** Column index -> header text, for the columns whose header is recognised. */
  type HeaderIndex = map<nat, string>

  /** A student row: its five fields, all present, `""` or `[]` by default. The Name column is
      the record's key, not a field. */
  datatype Student = Student(
    emailAddress: string,
    teamName: string,
    mysoreAvailability: seq<string>,
    individualProgressMapLink: string,
    selfAssessmentLink: string)

  /** One `{name, link}` entry of a team's weekly templates. */
  datatype Template = Template(name: string, link: string)

  /** A team row: its Week columns, in column order. The Team Name column is the key. */
  datatype Team = Team(weeklyTemplates: seq<Template>)

  const DefaultStudent := Student("", "", [], "", "")

  /** The headers of the Student Info mapping (each maps to the field of the same meaning). */
  const StudentHeaders: set<string> :=
    {"Name", "Email", "Team Name", "Mysore Availability", "Individual Progress Map", "Self-Assessment"}

  /** The headers of the Team Info mapping. */
  const TeamHeaders: set<string> :=
    {"Team Name", "Week 1 Template", "Week 2 Template", "Week 3 Template", "Week 4 Template",
     "Week 5 Template", "Week 6 Template", "Week 7 Template", "Week 8 Template", "Week 9 Template"}

  /** The names the Sprint tab looks up, `Week 1 Template` to `Week 9 Template`, are exactly the
      Week keys of the Team Info mapping, so each can come from a column of the Team Info sheet. */
  lemma WeekNamesAreTeamHeaders(week: nat)
    requires 1 <= week <= 9
    ensures WeekTemplateName(week) in TeamHeaders
  {
    var digit := DigitChar(week);
    assert WeekTemplateName(week) == "Week " + [digit] + " Template";
    if week == 1 { assert "Week " + [digit] + " Template" == "Week 1 Template"; }
    else if week == 2 { assert "Week " + [digit] + " Template" == "Week 2 Template"; }
    else if week == 3 { assert "Week " + [digit] + " Template" == "Week 3 Template"; }
    else if week == 4 { assert "Week " + [digit] + " Template" == "Week 4 Template"; }
    else if week == 5 { assert "Week " + [digit] + " Template" == "Week 5 Template"; }
    else if week == 6 { assert "Week " + [digit] + " Template" == "Week 6 Template"; }
    else if week == 7 { assert "Week " + [digit] + " Template" == "Week 7 Template"; }
    else if week == 8 { assert "Week " + [digit] + " Template" == "Week 8 Template"; }
    else { assert "Week " + [digit] + " Template" == "Week 9 Template"; }
  }

  // ---------------------------------------------------------------------------------------------
  // The header row
  // ---------------------------------------------------------------------------------------------

  /** The recognised columns of `header`, each with its header text. */
  function RecognisedColumns(header: seq<string>, recognised: set<string>): HeaderIndex {
    map c: nat | c < |header| && header[c] in recognised :: header[c]
  }

  /** The unrecognised header texts, in header order. */
  function Excluded(header: seq<string>, recognised: set<string>): seq<string> {
    if header == [] then []
    else
      var last := header[|header| - 1];
      Excluded(header[..|header| - 1], recognised) + (if last in recognised then [] else [last])
  }

  /** Lines 39-43: every header cell is either indexed by its column or appended to the
      exclude list. */
  method ClassifyHeader(header: seq<string>, recognised: set<string>)
      returns (index: HeaderIndex, excluded: seq<string>)
    ensures index == RecognisedColumns(header, recognised)
    ensures excluded == Excluded(header, recognised)
  {
    index, excluded := map[], [];
    for c := 0 to |header|
      invariant index == RecognisedColumns(header[..c], recognised)
      invariant excluded == Excluded(header[..c], recognised)
    {
      assert header[..c + 1][..c] == header[..c];
      if header[c] in recognised {
        index := index[c := header[c]];
      } else {
        excluded := excluded + [header[c]];
      }
    }
    assert header[..|header|] == header;
  }

  /** Each header cell is classified exactly one way: its column is indexed, with its own text,
      exactly when the text is recognised, and a text is in the exclude list exactly when it
      occurs in the header and is not recognised. */
  lemma {:induction false} HeaderClassifiedOnce(header: seq<string>, recognised: set<string>)
    ensures forall c :: 0 <= c < |header| ==>
              (c in RecognisedColumns(header, recognised) <==> header[c] in recognised)
    ensures forall h :: h in Excluded(header, recognised) <==> h in header && h !in recognised
  {
    if header != [] {
      var n := |header| - 1;
      HeaderClassifiedOnce(header[..n], recognised);
      assert header == header[..n] + [header[n]];
    }
  }

  /** The indexed columns and the excluded texts together account for every header cell. */
  lemma {:induction false} HeaderClassificationCount(header: seq<string>, recognised: set<string>)
    ensures |RecognisedColumns(header, recognised).Keys| + |Excluded(header, recognised)| == |header|
  {
    if header != [] {
      var n := |header| - 1;
      var prefix := header[..n];
      HeaderClassificationCount(prefix, recognised);
      var before := RecognisedColumns(prefix, recognised).Keys;
      var after := RecognisedColumns(header, recognised).Keys;
      assert forall c: nat :: c in after <==> c in before || (c == n && header[n] in recognised) by {
        forall c: nat
          ensures c in after <==> c in before || (c == n && header[n] in recognised)
        {
          if c < n {
            assert header[c] == prefix[c];
          }
        }
      }
      assert Excluded(header, recognised)
             == Excluded(prefix, recognised) + (if header[n] in recognised then [] else [header[n]]);
      if header[n] in recognised {
        assert after == before + {n};
      } else {
        assert after == before;
      }
    }
  }

  // ---------------------------------------------------------------------------------------------
  // Cells of a row, column by column
  // ---------------------------------------------------------------------------------------------

  function HeaderAt(index: HeaderIndex, c: nat): Option<string> {
    if c in index then Some(index[c]) else None
  }

  /** The cell of the last of the first `n` columns of `row` whose header is `h`. */
  function LastCell(index: HeaderIndex, row: seq<string>, h: string, n: nat): Option<string>
    requires n <= |row|
  {
    if n == 0 then None
    else if HeaderAt(index, n - 1) == Some(h) then Some(row[n - 1])
    else LastCell(index, row, h, n - 1)
  }

  /** The cell is present only when some column with that header is, and it is the cell of the
      last such column. */
  lemma {:induction false} LastCellIsLastColumn(index: HeaderIndex, row: seq<string>, h: string, n: nat)
    requires n <= |row|
    ensures LastCell(index, row, h, n).None? <==> forall c :: 0 <= c < n ==> HeaderAt(index, c) != Some(h)
    ensures forall c :: 0 <= c < n && HeaderAt(index, c) == Some(h)
                        && (forall c' :: c < c' < n ==> HeaderAt(index, c') != Some(h))
                    ==> LastCell(index, row, h, n) == Some(row[c])
  {
    if n > 0 {
      LastCellIsLastColumn(index, row, h, n - 1);
    }
  }

  /** A scalar field: the trimmed cell, or `""` when the column is absent from the row. */
  function TrimmedOr(cell: Option<string>): string {
    match cell
    case None => ""
    case Some(s) => Trim(s)
  }

  // ---------------------------------------------------------------------------------------------
  // Student rows
  // ---------------------------------------------------------------------------------------------

  /** The targets of the Student Info header mapping: the key and the five record fields. */
  datatype StudentField = Name | Email | TeamName | MysoreAvailability | IndividualProgressMap | SelfAssessment

  /** The Student Info header mapping (lines 25-32), from header text to its target. */
  function StudentFieldOf(header: string): (f: Option<StudentField>)
    ensures f.Some? <==> header in StudentHeaders
  {
    if header == "Name" then Some(Name)
    else if header == "Email" then Some(Email)
    else if header == "Team Name" then Some(TeamName)
    else if header == "Mysore Availability" then Some(MysoreAvailability)
    else if header == "Individual Progress Map" then Some(IndividualProgressMap)
    else if header == "Self-Assessment" then Some(SelfAssessment)
    else None
  }

  /** The mapping target of column `c`, if the column is indexed. */
  function FieldAt(index: HeaderIndex, c: nat): Option<StudentField> {
    if c in index then StudentFieldOf(index[c]) else None
  }

  /** The header a target is mapped from: the Student Info mapping is one to one. */
  function FieldHeader(f: StudentField): (h: string)
    ensures h in StudentHeaders && StudentFieldOf(h) == Some(f)
  {
    match f
    case Name => "Name"
    case Email => "Email"
    case TeamName => "Team Name"
    case MysoreAvailability => "Mysore Availability"
    case IndividualProgressMap => "Individual Progress Map"
    case SelfAssessment => "Self-Assessment"
  }

  /** A column maps to `f` exactly when its header is the one `f` is mapped from. */
  lemma FieldAtIffHeader(index: HeaderIndex, c: nat, f: StudentField)
    ensures FieldAt(index, c) == Some(f) <==> HeaderAt(index, c) == Some(FieldHeader(f))
  {
  }

  /** The cell of the last of the first `n` columns of `row` that maps to `f`. It is the
      `LastCell` of the header `f` is mapped from (LastFieldCellIsLastCell); it is kept as its own
      recursion on the target because the student loop dispatches on the target, and unfolding
      it step by step there is what keeps that loop's proof small. */
  function LastFieldCell(index: HeaderIndex, row: seq<string>, f: StudentField, n: nat): Option<string>
    requires n <= |row|
  {
    if n == 0 then None
    else if FieldAt(index, n - 1) == Some(f) then Some(row[n - 1])
    else LastFieldCell(index, row, f, n - 1)
  }

  /** The cell of a target is the cell of its header: lines 69-79 test the header text itself. */
  lemma {:induction false} LastFieldCellIsLastCell(index: HeaderIndex, row: seq<string>, f: StudentField, n: nat)
    requires n <= |row|
    ensures LastFieldCell(index, row, f, n) == LastCell(index, row, FieldHeader(f), n)
  {
    if n > 0 {
      FieldAtIffHeader(index, n - 1, f);
      LastFieldCellIsLastCell(index, row, f, n - 1);
    }
  }

  /** The cell is present only when some column maps to `f`, and it is the cell of the last such
      column. */
  lemma {:induction false} LastFieldCellIsLastColumn(index: HeaderIndex, row: seq<string>, f: StudentField, n: nat)
    requires n <= |row|
    ensures LastFieldCell(index, row, f, n).None? <==> forall c :: 0 <= c < n ==> FieldAt(index, c) != Some(f)
    ensures forall c :: 0 <= c < n && FieldAt(index, c) == Some(f)
                        && (forall c' :: c < c' < n ==> FieldAt(index, c') != Some(f))
                    ==> LastFieldCell(index, row, f, n) == Some(row[c])
  {
    LastFieldCellIsLastCell(index, row, f, n);
    LastCellIsLastColumn(index, row, FieldHeader(f), n);
    forall c: nat {
      FieldAtIffHeader(index, c, f);
    }
  }

  /** Line 75: the availability cell split on commas, each piece trimmed, in order. */
  function SplitAvailability(cell: string): (times: seq<string>)
    ensures |times| == Count(cell, ',') + 1
  {
    var pieces := Split(cell, ',');
    SplitLength(cell, ',');
    seq(|pieces|, i requires 0 <= i < |pieces| => Trim(pieces[i]))
  }

  /** The availability list gathered from the first `n` columns: every Mysore Availability
      column extends it with its split cell. */
  function AvailabilityUpTo(index: HeaderIndex, row: seq<string>, n: nat): seq<string>
    requires n <= |row|
  {
    if n == 0 then []
    else
      AvailabilityUpTo(index, row, n - 1)
      + (if FieldAt(index, n - 1) == Some(MysoreAvailability) then SplitAvailability(row[n - 1]) else [])
  }

  /** Key and record of a student row, as far as its first `n` cells go: the key is the raw Name
      cell, every scalar field the trimmed cell of the last column mapped to it. */
  function StudentRowUpTo(index: HeaderIndex, row: seq<string>, n: nat): (string, Student)
    requires n <= |row|
  {
    (LastFieldCell(index, row, Name, n).GetOr(""),
     Student(
       TrimmedOr(LastFieldCell(index, row, Email, n)),
       TrimmedOr(LastFieldCell(index, row, TeamName, n)),
       AvailabilityUpTo(index, row, n),
       TrimmedOr(LastFieldCell(index, row, IndividualProgressMap, n)),
       TrimmedOr(LastFieldCell(index, row, SelfAssessment, n))))
  }

  function StudentRow(index: HeaderIndex, row: seq<string>): (string, Student) {
    StudentRowUpTo(index, row, |row|)
  }

  /** Lines 53-79: parse one data row of the Student Info sheet. Cells past the end of a short
      row are never visited, and a column outside the index is skipped. The index holds only
      mapping keys, so an indexed header always has a target. */
  method ParseStudentRow(index: HeaderIndex, row: seq<string>) returns (name: string, student: Student)
    ensures (name, student) == StudentRow(index, row)
  {
    name, student := "", DefaultStudent;
    for c: nat := 0 to |row|
      invariant name == LastFieldCell(index, row, Name, c).GetOr("")
      invariant student.emailAddress == TrimmedOr(LastFieldCell(index, row, Email, c))
      invariant student.teamName == TrimmedOr(LastFieldCell(index, row, TeamName, c))
      invariant student.mysoreAvailability == AvailabilityUpTo(index, row, c)
      invariant student.individualProgressMapLink == TrimmedOr(LastFieldCell(index, row, IndividualProgressMap, c))
      invariant student.selfAssessmentLink == TrimmedOr(LastFieldCell(index, row, SelfAssessment, c))
    {
      if c !in index {
        continue;
      }
      var field := StudentFieldOf(index[c]);
      if field == Some(Name) {
        name := row[c];
      } else if field == Some(MysoreAvailability) {
        student := student.(mysoreAvailability := student.mysoreAvailability + SplitAvailability(row[c]));
      } else if field == Some(Email) {
        student := student.(emailAddress := Trim(row[c]));
      } else if field == Some(TeamName) {
        student := student.(teamName := Trim(row[c]));
      } else if field == Some(IndividualProgressMap) {
        student := student.(individualProgressMapLink := Trim(row[c]));
      } else if field == Some(SelfAssessment) {
        student := student.(selfAssessmentLink := Trim(row[c]));
      }
    }
  }

  /** The availability of a row with a single Mysore Availability column is that cell split on
      commas: one more time than the cell has commas. */
  lemma {:induction false} AvailabilityOfOneColumn(index: HeaderIndex, row: seq<string>, c: nat, n: nat)
    requires c < n <= |row|
    requires FieldAt(index, c) == Some(MysoreAvailability)
    requires forall c' :: 0 <= c' < n && c' != c ==> FieldAt(index, c') != Some(MysoreAvailability)
    ensures AvailabilityUpTo(index, row, n) == SplitAvailability(row[c])
    ensures |AvailabilityUpTo(index, row, n)| == Count(row[c], ',') + 1
  {
    if n - 1 == c {
      AvailabilityWithoutColumn(index, row, c);
    } else {
      AvailabilityOfOneColumn(index, row, c, n - 1);
    }
  }

  /** Without a Mysore Availability column the availability keeps its default `[]`. */
  lemma {:induction false} AvailabilityWithoutColumn(index: HeaderIndex, row: seq<string>, n: nat)
    requires n <= |row|
    requires forall c :: 0 <= c < n ==> FieldAt(index, c) != Some(MysoreAvailability)
    ensures AvailabilityUpTo(index, row, n) == []
  {
    if n > 0 {
      AvailabilityWithoutColumn(index, row, n - 1);
    }
  }

  /** An empty availability cell gives one empty time, not none. */
  lemma EmptyAvailabilityCell()
    ensures SplitAvailability("") == [""]
  {
    assert Split("", ',') == [""];
  }

  // ---------------------------------------------------------------------------------------------
  // Team rows
  // ---------------------------------------------------------------------------------------------

  /** The weekly templates of the first `n` columns: one `{name: header, link: trimmed cell}` per
      column whose header matches the Week pattern, in column order. */
  function TemplatesUpTo(index: HeaderIndex, row: seq<string>, n: nat): seq<Template>
    requires n <= |row|
  {
    if n == 0 then [] else TemplatesUpTo(index, row, n - 1) + TemplateOfColumn(index, row, n - 1)
  }

  /** The template column `c` contributes: one when its header matches the Week pattern. */
  function TemplateOfColumn(index: HeaderIndex, row: seq<string>, c: nat): seq<Template>
    requires c < |row|
  {
    if c in index && IsWeekTemplateHeader(index[c]) then [Template(index[c], Trim(row[c]))] else []
  }

  /** Key and record of a team row, as far as its first `n` cells go: the key is the trimmed
      Team Name cell. */
  function TeamRowUpTo(index: HeaderIndex, row: seq<string>, n: nat): (string, Team)
    requires n <= |row|
  {
    (TrimmedOr(LastCell(index, row, "Team Name", n)), Team(TemplatesUpTo(index, row, n)))
  }

  function TeamRow(index: HeaderIndex, row: seq<string>): (string, Team) {
    TeamRowUpTo(index, row, |row|)
  }

  lemma TeamNameIsNotWeekHeader()
    ensures !IsWeekTemplateHeader("Team Name")
  {
    assert "Team Name"[0] != WeekPrefix[0];
  }

  /** Lines 134-159: parse one data row of the Team Info sheet. The index only holds mapping
      keys, each of which is "Team Name" or a Week column, so the branch of lines 158-159 that
      stores any other field never runs and has no counterpart here. */
  method ParseTeamRow(index: HeaderIndex, row: seq<string>) returns (name: string, team: Team)
    ensures (name, team) == TeamRow(index, row)
  {
    name, team := "", Team([]);
    for c: nat := 0 to |row|
      invariant name == TrimmedOr(LastCell(index, row, "Team Name", c))
      invariant team.weeklyTemplates == TemplatesUpTo(index, row, c)
    {
      if c !in index {
        assert TemplateOfColumn(index, row, c) == [];
        continue;
      }
      var h := index[c];
      if IsWeekTemplateHeader(h) {
        assert h != "Team Name" by { TeamNameIsNotWeekHeader(); }
        assert LastCell(index, row, "Team Name", c + 1) == LastCell(index, row, "Team Name", c);
        team := team.(weeklyTemplates := team.weeklyTemplates + [Template(h, Trim(row[c]))]);
      } else if h == "Team Name" {
        assert TemplateOfColumn(index, row, c) == [];
        name := Trim(row[c]);
      } else {
        assert TemplateOfColumn(index, row, c) == [];
      }
    }
  }

  /** Every weekly template comes from a Week column of the row, carrying that column's header
      and trimmed cell. */
  lemma {:induction false} TemplatesComeFromWeekColumns(index: HeaderIndex, row: seq<string>, n: nat)
    requires n <= |row|
    ensures forall t :: t in TemplatesUpTo(index, row, n) ==>
              IsWeekTemplateHeader(t.name)
              && exists c :: 0 <= c < n && HeaderAt(index, c) == Some(t.name) && t.link == Trim(row[c])
  {
    if n > 0 {
      TemplatesComeFromWeekColumns(index, row, n - 1);
    }
  }

  /** The first of the first `n` columns whose header is `h`. */
  function FirstColumn(index: HeaderIndex, h: string, n: nat): (r: Option<nat>)
    ensures r.Some? ==> r.value < n
  {
    if n == 0 then None
    else
      var r := FirstColumn(index, h, n - 1);
      if r.Some? then r else if HeaderAt(index, n - 1) == Some(h) then Some(n - 1) else None
  }

  /** `FirstColumn` finds nothing exactly when no column has the header, and otherwise a column
      with the header before which no column has it. */
  lemma {:induction false} FirstColumnIsFirst(index: HeaderIndex, h: string, n: nat)
    ensures var r := FirstColumn(index, h, n);
            && (r.None? <==> forall c :: 0 <= c < n ==> HeaderAt(index, c) != Some(h))
            && (r.Some? ==> HeaderAt(index, r.value) == Some(h)
                            && forall c :: 0 <= c < r.value ==> HeaderAt(index, c) != Some(h))
  {
    if n > 0 {
      FirstColumnIsFirst(index, h, n - 1);
    }
  }

  /** Looking up a Week header among the templates finds nothing when no column has it. */
  lemma {:induction false} WeekColumnAbsent(index: HeaderIndex, row: seq<string>, n: nat, h: string)
    requires n <= |row|
    requires IsWeekTemplateHeader(h)
    requires FirstColumn(index, h, n).None?
    ensures FirstNamed(TemplatesUpTo(index, row, n), h).None?
  {
    if n > 0 {
      WeekColumnAbsent(index, row, n - 1, h);
      FirstNamedAppend(TemplatesUpTo(index, row, n - 1), TemplateOfColumn(index, row, n - 1), h);
      TemplateOfColumnNamed(index, row, n - 1, h);
    }
  }

  /** Looking up a Week header among the templates finds the trimmed cell of the FIRST column
      with that header. */
  lemma {:induction false} WeekColumnLink(index: HeaderIndex, row: seq<string>, n: nat, h: string, c: nat)
    requires n <= |row|
    requires IsWeekTemplateHeader(h)
    requires FirstColumn(index, h, n) == Some(c)
    ensures FirstNamed(TemplatesUpTo(index, row, n), h) == Some(Template(h, Trim(row[c])))
  {
    var prev := TemplatesUpTo(index, row, n - 1);
    var added := TemplateOfColumn(index, row, n - 1);
    assert TemplatesUpTo(index, row, n) == prev + added;
    FirstNamedAppend(prev, added, h);
    if FirstColumn(index, h, n - 1).None? {
      assert c == n - 1 && HeaderAt(index, c) == Some(h);
      WeekColumnAbsent(index, row, n - 1, h);
      TemplateOfColumnNamed(index, row, n - 1, h);
    } else {
      assert FirstColumn(index, h, n - 1) == Some(c);
      WeekColumnLink(index, row, n - 1, h, c);
    }
  }

  lemma TemplateOfColumnNamed(index: HeaderIndex, row: seq<string>, c: nat, h: string)
    requires c < |row|
    requires IsWeekTemplateHeader(h)
    ensures FirstNamed(TemplateOfColumn(index, row, c), h)
            == if HeaderAt(index, c) == Some(h) then Some(Template(h, Trim(row[c]))) else None
  {
  }

  /** The first template named `name`: the lookup of a week's link (create_self_assessments.py,
      lines 115-122). */
  function FirstNamed(templates: seq<Template>, name: string): (r: Option<Template>)
    ensures r.Some? ==> r.value in templates && r.value.name == name
    ensures r.None? ==> forall t :: t in templates ==> t.name != name
  {
    if templates == [] then None
    else if templates[0].name == name then Some(templates[0])
    else FirstNamed(templates[1..], name)
  }

  /** A template preceded only by templates of other names is the first one of its name. */
  lemma {:induction false} FirstNamedAt(templates: seq<Template>, name: string, j: nat)
    requires j < |templates| && templates[j].name == name
    requires forall k :: 0 <= k < j ==> templates[k].name != name
    ensures FirstNamed(templates, name) == Some(templates[j])
  {
    if j > 0 {
      FirstNamedAt(templates[1..], name, j - 1);
    }
  }

  lemma {:induction false} FirstNamedAppend(a: seq<Template>, b: seq<Template>, name: string)
    ensures FirstNamed(a + b, name) == if FirstNamed(a, name).Some? then FirstNamed(a, name) else FirstNamed(b, name)
  {
    if a != [] {
      assert (a + b)[1..] == a[1..] + b;
      FirstNamedAppend(a[1..], b, name);
    } else {
      assert a + b == b;
    }
  }

  // ---------------------------------------------------------------------------------------------
  // Whole sheets
  // ---------------------------------------------------------------------------------------------

  function StudentEntries(index: HeaderIndex, rows: seq<seq<string>>): (es: seq<Entry<Student>>)
    ensures |es| == |rows|
  {
    seq(|rows|, i requires 0 <= i < |rows| => Entry(StudentRow(index, rows[i]).0, StudentRow(index, rows[i]).1))
  }

  lemma StudentEntriesSnoc(index: HeaderIndex, rows: seq<seq<string>>, i: nat)
    requires i < |rows|
    ensures StudentEntries(index, rows[..i + 1])
            == StudentEntries(index, rows[..i]) + [Entry(StudentRow(index, rows[i]).0, StudentRow(index, rows[i]).1)]
  {
    assert rows[..i + 1][i] == rows[i];
  }

  /** `fetch_student_info` on the values of the sheet: an `IndexError` for a sheet without even
      a header row, else every data row stored under its key, a later row with the same key
      replacing the record of an earlier one. */
  function StudentInfo(sheet: Sheet): Result<Dict<Student>> {
    if sheet == [] then Err(IndexError)
    else Ok(FromEntries(StudentEntries(RecognisedColumns(sheet[0], StudentHeaders), sheet[1..])))
  }

  /** Lines 24-85 (without the worksheet read and the printed warning). */
  method FetchStudentInfo(sheet: Sheet) returns (r: Result<Dict<Student>>)
    ensures r == StudentInfo(sheet)
  {
    if |sheet| == 0 {
      return Err(IndexError);
    }
    var index, excluded := ClassifyHeader(sheet[0], StudentHeaders);
    ghost var rows := sheet[1..];
    var output: Dict<Student> := [];
    for i := 1 to |sheet|
      invariant output == FromEntries(StudentEntries(index, rows[..i - 1]))
    {
      var name, student := ParseStudentRow(index, sheet[i]);
      StudentEntriesSnoc(index, rows, i - 1);
      output := Put(output, name, student);
    }
    assert rows[..|sheet| - 1] == rows;
    return Ok(output);
  }

  function TeamEntries(index: HeaderIndex, rows: seq<seq<string>>): (es: seq<Entry<Team>>)
    ensures |es| == |rows|
  {
    seq(|rows|, i requires 0 <= i < |rows| => Entry(TeamRow(index, rows[i]).0, TeamRow(index, rows[i]).1))
  }

  lemma TeamEntriesSnoc(index: HeaderIndex, rows: seq<seq<string>>, i: nat)
    requires i < |rows|
    ensures TeamEntries(index, rows[..i + 1])
            == TeamEntries(index, rows[..i]) + [Entry(TeamRow(index, rows[i]).0, TeamRow(index, rows[i]).1)]
  {
    assert rows[..i + 1][i] == rows[i];
  }

  /** `fetch_team_info` on the values of the sheet. */
  function TeamInfo(sheet: Sheet): Result<Dict<Team>> {
    if sheet == [] then Err(IndexError)
    else Ok(FromEntries(TeamEntries(RecognisedColumns(sheet[0], TeamHeaders), sheet[1..])))
  }

  /** Lines 101-165 (without the worksheet read and the printed warning). */
  method FetchTeamInfo(sheet: Sheet) returns (r: Result<Dict<Team>>)
    ensures r == TeamInfo(sheet)
  {
    if |sheet| == 0 {
      return Err(IndexError);
    }
    var index, excluded := ClassifyHeader(sheet[0], TeamHeaders);
    ghost var rows := sheet[1..];
    var output: Dict<Team> := [];
    for i := 1 to |sheet|
      invariant output == FromEntries(TeamEntries(index, rows[..i - 1]))
    {
      var name, team := ParseTeamRow(index, sheet[i]);
      TeamEntriesSnoc(index, rows, i - 1);
      output := Put(output, name, team);
    }
    assert rows[..|sheet| - 1] == rows;
    return Ok(output);
  }

  /** The student dictionary has one key per distinct row key, in the order the keys first
      appear, and each key holds the record of the LAST row with that key. */
  lemma StudentInfoKeysAndOverwrite(sheet: Sheet, k: string)
    requires sheet != []
    ensures var es := StudentEntries(RecognisedColumns(sheet[0], StudentHeaders), sheet[1..]);
            && Keys(StudentInfo(sheet).value) == FirstOccurrences(Keys(es))
            && Get(StudentInfo(sheet).value, k) == LastValue(es, k)
  {
    var es := StudentEntries(RecognisedColumns(sheet[0], StudentHeaders), sheet[1..]);
    FromEntriesKeys(es);
    FromEntriesGet(es, k);
  }

  /** A row none of whose cells maps to a scalar target keeps the default for it: the empty key
      for Name, `""` for a field. */
  lemma MissingColumnsKeepDefaults(index: HeaderIndex, row: seq<string>, f: StudentField)
    requires f != MysoreAvailability
    requires forall c :: 0 <= c < |row| ==> FieldAt(index, c) != Some(f)
    ensures var (name, s) := StudentRow(index, row);
            match f
            case Name => name == ""
            case Email => s.emailAddress == ""
            case TeamName => s.teamName == ""
            case IndividualProgressMap => s.individualProgressMapLink == ""
            case SelfAssessment => s.selfAssessmentLink == ""
            case MysoreAvailability => true
  {
    LastFieldCellIsLastColumn(index, row, f, |row|);
  }
}
