/** The Studio Database: the student dictionary joined with the team dictionary
    (`create_studio_db_dict`), its export as a list of students (`export_studio_db_as_json`), and
    the whole pipeline from the two worksheets (`main`), all in roster_to_json.py. */
module StudioDb {
  import opened Wrappers
  import opened Dicts
  import opened Roster

  /** The team part of a student's record: the team's weekly templates, its name and the names
      of all its members. */
  datatype TeamInfo = TeamInfo(weeklyTemplates: seq<Template>, teamName: string, teamMembers: seq<string>)

  /** A student of the database: the student's own fields except the team name, which moves
      into the team part. */
  datatype StudioRecord = StudioRecord(
    emailAddress: string,
    mysoreAvailability: seq<string>,
    individualProgressMapLink: string,
    selfAssessmentLink: string,
    teamInfo: TeamInfo)

  type Database = Dict<StudioRecord>

  // ---------------------------------------------------------------------------------------------
  // Team members and the missing-team error
  // ---------------------------------------------------------------------------------------------

  /** The names, in dictionary order, of the first `n` students whose team is `team`. */
  function MembersUpTo(students: Dict<Student>, team: string, n: nat): seq<string>
    requires n <= |students|
  {
    if n == 0 then []
    else
      MembersUpTo(students, team, n - 1)
      + (if students[n - 1].value.teamName == team then [students[n - 1].key] else [])
  }

  function MembersOf(students: Dict<Student>, team: string): seq<string> {
    MembersUpTo(students, team, |students|)
  }

  /** The team of the first of the first `n` students whose team is not a key of `teams`. */
  function MissingTeamUpTo(students: Dict<Student>, teams: Dict<Team>, n: nat): (r: Option<string>)
    requires n <= |students|
  {
    if n == 0 then None
    else
      var r := MissingTeamUpTo(students, teams, n - 1);
      if r.Some? then r
      else if students[n - 1].value.teamName !in Keys(teams) then Some(students[n - 1].value.teamName)
      else None
  }

  function MissingTeam(students: Dict<Student>, teams: Dict<Team>): Option<string> {
    MissingTeamUpTo(students, teams, |students|)
  }

  /** A member list holds exactly the students of the team, each once for each entry. */
  lemma {:induction false} MembersAreTeamStudents(students: Dict<Student>, team: string, n: nat)
    requires n <= |students|
    ensures forall name :: name in MembersUpTo(students, team, n)
              <==> exists i :: 0 <= i < n && students[i].key == name && students[i].value.teamName == team
  {
    if n > 0 {
      MembersAreTeamStudents(students, team, n - 1);
      var s := students[n - 1];
      forall name
        ensures name in MembersUpTo(students, team, n)
                <==> exists i :: 0 <= i < n && students[i].key == name && students[i].value.teamName == team
      {
        if exists i :: 0 <= i < n && students[i].key == name && students[i].value.teamName == team {
          var i :| 0 <= i < n && students[i].key == name && students[i].value.teamName == team;
          if i < n - 1 {
            assert name in MembersUpTo(students, team, n - 1);
          }
        }
      }
    }
  }

  predicate NoDuplicates(names: seq<string>) {
    forall i, j :: 0 <= i < j < |names| ==> names[i] != names[j]
  }

  /** In a dictionary no name repeats, so no member list repeats a name. */
  lemma {:induction false} MembersDistinct(students: Dict<Student>, team: string, n: nat)
    requires n <= |students|
    requires Valid(students)
    ensures NoDuplicates(MembersUpTo(students, team, n))
  {
    if n > 0 {
      MembersDistinct(students, team, n - 1);
      var prev := MembersUpTo(students, team, n - 1);
      if students[n - 1].value.teamName == team {
        MembersAreTeamStudents(students, team, n - 1);
        var key := students[n - 1].key;
        assert key !in prev;
        var m := prev + [key];
        assert MembersUpTo(students, team, n) == m;
        forall i, j | 0 <= i < j < |m|
          ensures m[i] != m[j]
        {
          if j == |prev| {
            assert m[i] == prev[i];
          } else {
            assert m[i] == prev[i] && m[j] == prev[j];
          }
        }
      } else {
        assert MembersUpTo(students, team, n) == prev + [];
        assert prev + [] == prev;
      }
    }
  }

  /** No team is reported missing exactly when every student's team is a key of `teams`;
      otherwise the one reported is the team of the first student whose team is missing. */
  lemma {:induction false} MissingTeamIsFirst(students: Dict<Student>, teams: Dict<Team>, n: nat)
    requires n <= |students|
    ensures var r := MissingTeamUpTo(students, teams, n);
            && (r.None? <==> forall i :: 0 <= i < n ==> students[i].value.teamName in Keys(teams))
            && (r.Some? ==> exists i :: 0 <= i < n && students[i].value.teamName == r.value
                              && r.value !in Keys(teams)
                              && forall j :: 0 <= j < i ==> students[j].value.teamName in Keys(teams))
  {
    if n > 0 {
      MissingTeamIsFirst(students, teams, n - 1);
    }
  }

  // ---------------------------------------------------------------------------------------------
  // Joining students with teams
  // ---------------------------------------------------------------------------------------------

  /** The database record of one student whose team is known. */
  function RecordOf(students: Dict<Student>, teams: Dict<Team>, s: Student): StudioRecord
    requires s.teamName in Keys(teams)
  {
    StudioRecord(
      s.emailAddress, s.mysoreAvailability, s.individualProgressMapLink, s.selfAssessmentLink,
      TeamInfo(Lookup(teams, s.teamName).weeklyTemplates, s.teamName, MembersOf(students, s.teamName)))
  }

  /** `create_studio_db_dict`: a `KeyError` naming the first missing team, or every student, in
      the same order, with the record of its team in place of its team name. */
  function StudioDbOf(students: Dict<Student>, teams: Dict<Team>): Result<Database> {
    var missing := MissingTeam(students, teams);
    if missing.Some? then Err(KeyError(missing.value))
    else
      MissingTeamIsFirst(students, teams, |students|);
      Ok(seq(|students|, i requires 0 <= i < |students| =>
        Entry(students[i].key, RecordOf(students, teams, students[i].value))))
  }

  /** Lines 180-182: the member list of every team, in the order of the students; a student of
      a team that is not a key of `teams` raises a `KeyError` at once. */
  method GroupTeamMembers(students: Dict<Student>, teams: Dict<Team>)
      returns (r: Result<map<string, seq<string>>>)
    ensures r.Err? <==> MissingTeam(students, teams).Some?
    ensures r.Err? ==> r.error == KeyError(MissingTeam(students, teams).value)
    ensures r.Ok? ==> forall t :: t in r.value <==> t in Keys(teams)
    ensures r.Ok? ==> forall t :: t in r.value ==> r.value[t] == MembersOf(students, t)
  {
    var members := map t | t in Keys(teams) :: [];
    for i := 0 to |students|
      invariant forall t :: t in members <==> t in Keys(teams)
      invariant forall t :: t in members ==> members[t] == MembersUpTo(students, t, i)
      invariant MissingTeamUpTo(students, teams, i).None?
    {
      var team := students[i].value.teamName;
      if team !in members {
        MissingTeamStays(students, teams, i + 1, |students|);
        return Err(KeyError(team));
      }
      members := members[team := members[team] + [students[i].key]];
    }
    return Ok(members);
  }

  /** Once a missing team is found among the first `m` students, later students change nothing. */
  lemma {:induction false} MissingTeamStays(students: Dict<Student>, teams: Dict<Team>, m: nat, n: nat)
    requires m <= n <= |students|
    requires MissingTeamUpTo(students, teams, m).Some?
    ensures MissingTeamUpTo(students, teams, n) == MissingTeamUpTo(students, teams, m)
  {
    if n > m {
      MissingTeamStays(students, teams, m, n - 1);
    }
  }

  /** Lines 177-199: group the members, then give every student, in order, the record of its
      team. */
  method CreateStudioDb(students: Dict<Student>, teams: Dict<Team>) returns (r: Result<Database>)
    ensures r == StudioDbOf(students, teams)
  {
    var grouped := GroupTeamMembers(students, teams);
    if grouped.Err? {
      return Err(grouped.error);
    }
    var members := grouped.value;
    var output: Database := [];
    for i := 0 to |students|
      invariant |output| == i
      invariant forall k :: 0 <= k < i ==>
                  && students[k].value.teamName in Keys(teams)
                  && output[k] == Entry(students[k].key, RecordOf(students, teams, students[k].value))
    {
      var s := students[i].value;
      assert s.teamName in members by {
        MissingTeamIsFirst(students, teams, |students|);
      }
      var teamInfo := TeamInfo(Lookup(teams, s.teamName).weeklyTemplates, s.teamName, members[s.teamName]);
      var entry := Entry(students[i].key,
        StudioRecord(s.emailAddress, s.mysoreAvailability, s.individualProgressMapLink, s.selfAssessmentLink, teamInfo));
      assert entry == Entry(students[i].key, RecordOf(students, teams, s));
      output := output + [entry];
    }
    assert output == StudioDbOf(students, teams).value;
    return Ok(output);
  }

  /** The join fails exactly when some student's team is not a key of `teams`, and then with a
      `KeyError` naming the team of the first such student. */
  lemma StudioDbFailsOnMissingTeam(students: Dict<Student>, teams: Dict<Team>)
    ensures StudioDbOf(students, teams).Err?
            <==> exists i :: 0 <= i < |students| && students[i].value.teamName !in Keys(teams)
    ensures StudioDbOf(students, teams).Err? ==>
              exists i :: 0 <= i < |students|
                && StudioDbOf(students, teams).error == KeyError(students[i].value.teamName)
                && students[i].value.teamName !in Keys(teams)
                && forall j :: 0 <= j < i ==> students[j].value.teamName in Keys(teams)
  {
    MissingTeamIsFirst(students, teams, |students|);
  }

  /** The database has the students' keys in the students' order; each record keeps the
      student's own fields and carries the templates and the name of the student's team. */
  lemma StudioDbKeepsStudents(students: Dict<Student>, teams: Dict<Team>)
    requires StudioDbOf(students, teams).Ok?
    ensures var db := StudioDbOf(students, teams).value;
            && Keys(db) == Keys(students)
            && forall i :: 0 <= i < |db| ==>
                 var (s, rec) := (students[i].value, db[i].value);
                 && rec.emailAddress == s.emailAddress
                 && rec.mysoreAvailability == s.mysoreAvailability
                 && rec.individualProgressMapLink == s.individualProgressMapLink
                 && rec.selfAssessmentLink == s.selfAssessmentLink
                 && rec.teamInfo.teamName == s.teamName
                 && Get(teams, s.teamName) == Some(Team(rec.teamInfo.weeklyTemplates))
  {
    var db := StudioDbOf(students, teams).value;
    assert Keys(db) == Keys(students);
  }

  /** Every student is listed among the members of its own team, and the members of a team are
      exactly the students whose record names that team. */
  lemma StudioDbMembers(students: Dict<Student>, teams: Dict<Team>, i: nat)
    requires StudioDbOf(students, teams).Ok?
    requires i < |students|
    ensures var db := StudioDbOf(students, teams).value;
            forall name :: name in db[i].value.teamInfo.teamMembers
              <==> exists j :: 0 <= j < |db| && db[j].key == name
                               && db[j].value.teamInfo.teamName == db[i].value.teamInfo.teamName
  {
    var db := StudioDbOf(students, teams).value;
    assert forall j :: 0 <= j < |db| ==>
             db[j].key == students[j].key && db[j].value.teamInfo.teamName == students[j].value.teamName;
    MembersAreTeamStudents(students, students[i].value.teamName, |students|);
  }

  /** Students of one team carry the same team record: in the program they share one dictionary
      object. */
  lemma StudioDbSharesTeamInfo(students: Dict<Student>, teams: Dict<Team>)
    requires StudioDbOf(students, teams).Ok?
    ensures var db := StudioDbOf(students, teams).value;
            forall i, j :: 0 <= i < |db| && 0 <= j < |db|
              && db[i].value.teamInfo.teamName == db[j].value.teamInfo.teamName
              ==> db[i].value.teamInfo == db[j].value.teamInfo
  {
  }

  // ---------------------------------------------------------------------------------------------
  // Export
  // ---------------------------------------------------------------------------------------------

  /** One element of the exported list: the record with the student's name added under "name". */
  datatype ExportedStudent = ExportedStudent(
    emailAddress: string,
    mysoreAvailability: seq<string>,
    individualProgressMapLink: string,
    selfAssessmentLink: string,
    teamInfo: TeamInfo,
    name: string)

  function Exported(e: Entry<StudioRecord>): ExportedStudent {
    ExportedStudent(
      e.value.emailAddress, e.value.mysoreAvailability, e.value.individualProgressMapLink,
      e.value.selfAssessmentLink, e.value.teamInfo, e.key)
  }

  /** Lines 211-220: the database as a list of students in dictionary order, each record with
      its key added as "name". */
  method ExportStudioDb(db: Database) returns (out: seq<ExportedStudent>)
    ensures |out| == |db|
    ensures forall i :: 0 <= i < |db| ==> out[i] == Exported(db[i])
  {
    out := [];
    for i := 0 to |db|
      invariant |out| == i
      invariant forall k :: 0 <= k < i ==> out[k] == Exported(db[k])
    {
      var record := db[i].value;
      out := out + [ExportedStudent(
        record.emailAddress, record.mysoreAvailability, record.individualProgressMapLink,
        record.selfAssessmentLink, record.teamInfo, db[i].key)];
    }
  }

  /** Reading an exported list back into a dictionary keyed by "name". */
  function Imported(out: seq<ExportedStudent>): Database {
    FromEntries(seq(|out|, i requires 0 <= i < |out| =>
      Entry(out[i].name, StudioRecord(out[i].emailAddress, out[i].mysoreAvailability,
        out[i].individualProgressMapLink, out[i].selfAssessmentLink, out[i].teamInfo))))
  }

  /** The export loses nothing: keying the exported list by "name" gives back the database. */
  lemma ExportRoundTrip(db: Database)
    requires Valid(db)
    ensures Imported(seq(|db|, i requires 0 <= i < |db| => Exported(db[i]))) == db
  {
    var out := seq(|db|, i requires 0 <= i < |db| => Exported(db[i]));
    var es := seq(|out|, i requires 0 <= i < |out| =>
      Entry(out[i].name, StudioRecord(out[i].emailAddress, out[i].mysoreAvailability,
        out[i].individualProgressMapLink, out[i].selfAssessmentLink, out[i].teamInfo)));
    assert es == db;
    FromEntriesOfValid(db);
  }

  // ---------------------------------------------------------------------------------------------
  // The whole pipeline
  // ---------------------------------------------------------------------------------------------

  /** `main`, given the values of the two worksheets: a sheet without a header row fails first
      (the Student Info sheet is read first), then the join. */
  function StudioDatabase(studentSheet: Sheet, teamSheet: Sheet): Result<Database> {
    var students := StudentInfo(studentSheet);
    var teams := Roster.TeamInfo(teamSheet);
    if students.Err? then Err(students.error)
    else if teams.Err? then Err(teams.error)
    else StudioDbOf(students.value, teams.value)
  }

  /** The database the pipeline builds is a proper dictionary, no key twice. */
  lemma StudioDatabaseValid(studentSheet: Sheet, teamSheet: Sheet)
    requires StudioDatabase(studentSheet, teamSheet).Ok?
    ensures Valid(StudioDatabase(studentSheet, teamSheet).value)
  {
    var students := StudentInfo(studentSheet).value;
    var teams := Roster.TeamInfo(teamSheet).value;
    var db := StudioDatabase(studentSheet, teamSheet).value;
    StudioDbKeepsStudents(students, teams);
    assert forall i :: 0 <= i < |db| ==> db[i].key == students[i].key;
  }

  /** The export of the database the pipeline builds loses nothing: keyed by "name" it gives
      back the database. */
  lemma StudioDatabaseExportRoundTrip(studentSheet: Sheet, teamSheet: Sheet)
    requires StudioDatabase(studentSheet, teamSheet).Ok?
    ensures var db := StudioDatabase(studentSheet, teamSheet).value;
            Imported(seq(|db|, i requires 0 <= i < |db| => Exported(db[i]))) == db
  {
    StudioDatabaseValid(studentSheet, teamSheet);
    ExportRoundTrip(StudioDatabase(studentSheet, teamSheet).value);
  }

  /** Lines 246-250. */
  method BuildStudioDb(studentSheet: Sheet, teamSheet: Sheet) returns (r: Result<Database>)
    ensures r == StudioDatabase(studentSheet, teamSheet)
  {
    var students := FetchStudentInfo(studentSheet);
    if students.Err? {
      return Err(students.error);
    }
    var teams := FetchTeamInfo(teamSheet);
    if teams.Err? {
      return Err(teams.error);
    }
    r := CreateStudioDb(students.value, teams.value);
  }
}
